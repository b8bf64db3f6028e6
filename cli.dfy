/**
 * The command-line front end of src/srccli.rs: `main` turns the kernel's
 * argv into a command, runs it, and maps the outcome to an exit code. The
 * kernel calls the commands make (acquiring resources, spawning tasks,
 * the checksum and archive steps of an installation) are answers passed in
 * through `Env`; printing is left out.
 */
module Cli {
  import opened Wrappers
  import opened Resource
  import opened Errors

  const INSTALLED_PACKAGES_LIST_RESOURCE := "sahne://config/installed_packages.list"
  const PACKAGE_SCRIPT_BASE_RESOURCE := "sahne://system/package_scripts/"

  const EXTRA_ARGUMENT := "fazladan argüman"
  const MISSING_NAME := "paket adı eksik"

  // ---------------------------------------------------------------- arguments

  /**
   * The strings of argv: a null argv is empty, and an entry that is a null
   * pointer or not UTF-8 (`None` here) is dropped.
   */
  function Strings(argv: Option<seq<Option<string>>>): (r: seq<string>)
    ensures argv.None? ==> r == []
  {
    if argv.None? then [] else Present(argv.value)
  }

  function Present(xs: seq<Option<string>>): (r: seq<string>)
    ensures |r| <= |xs|
  {
    if xs == [] then []
    else (if xs[0].Some? then [xs[0].value] else []) + Present(xs[1..])
  }

  /** `Arguments::iter`: everything after the program name. */
  function Arguments(argv: Option<seq<Option<string>>>): (r: seq<string>)
  {
    var s := Strings(argv);
    if s == [] then [] else s[1..]
  }

  /** The program name is skipped, a null argv gives nothing, and the other strings keep their order. */
  lemma ArgumentsSkipProgramName(program: string, args: seq<string>)
    ensures Arguments(Some([Some(program)] + Wrap(args))) == args
    ensures Arguments(None) == []
  {
    var xs := [Some(program)] + Wrap(args);
    assert xs[1..] == Wrap(args);
    PresentWrap(args);
  }

  function Wrap(args: seq<string>): (r: seq<Option<string>>)
    ensures |r| == |args| && forall i :: 0 <= i < |args| ==> r[i] == Some(args[i])
  {
    if args == [] then [] else [Some(args[0])] + Wrap(args[1..])
  }

  lemma {:induction false} PresentWrap(args: seq<string>)
    ensures Present(Wrap(args)) == args
  {
    if args != [] {
      assert Wrap(args)[1..] == Wrap(args[1..]);
      PresentWrap(args[1..]);
    }
  }

  // ---------------------------------------------------------------- dispatch

  datatype Command =
    | Usage
    | Listele
    | Ekle(name: string)
    | Kaldir(name: string)
    | Ara(name: string)
    | Kur(name: string)

  /** The commands that take exactly one package name. */
  predicate TakesName(word: string) {
    word == "ekle" || word == "kaldir" || word == "ara" || word == "kur"
  }

  function Named(word: string, name: string): Command
    requires TakesName(word)
  {
    match word
    case "ekle" => Ekle(name)
    case "kaldir" => Kaldir(name)
    case "ara" => Ara(name)
    case _ => Kur(name)
  }

  /** The `match command` of `main`, with each `arg_iter.next()` a look at the next argument. */
  function Parse(args: seq<string>): Result<Command, PaketYoneticisiHatasi> {
    if args == [] then Ok(Usage)
    else if args[0] == "listele" then
      if |args| == 1 then Ok(Listele) else Err(GecersizParametre(EXTRA_ARGUMENT))
    else if TakesName(args[0]) then
      if |args| == 1 then Err(GecersizParametre(MISSING_NAME))
      else if |args| == 2 then Ok(Named(args[0], args[1]))
      else Err(GecersizParametre(EXTRA_ARGUMENT))
    else Err(GecersizParametre("bilinmeyen komut: " + args[0]))
  }

  /** The argument list a command is written as. */
  function Render(c: Command): seq<string> {
    match c
    case Usage => []
    case Listele => ["listele"]
    case Ekle(n) => ["ekle", n]
    case Kaldir(n) => ["kaldir", n]
    case Ara(n) => ["ara", n]
    case Kur(n) => ["kur", n]
  }

  /** Every command is recognised from the arguments it is written as, and every accepted argument list is one of those. */
  lemma ParseRender(c: Command, args: seq<string>)
    ensures Parse(Render(c)) == Ok(c)
    ensures Parse(args).Ok? ==> Render(Parse(args).value) == args
    ensures Parse(args).Ok? <==> exists d :: Render(d) == args
  {
    if exists d :: Render(d) == args {
      var d :| Render(d) == args;
      assert Parse(args) == Ok(d);
    }
  }

  /** How each malformed argument list is refused. */
  lemma ParseErrors(args: seq<string>)
    ensures args != [] && args[0] == "listele" && |args| > 1 ==>
              Parse(args) == Err(GecersizParametre(EXTRA_ARGUMENT))
    ensures args != [] && TakesName(args[0]) && |args| == 1 ==>
              Parse(args) == Err(GecersizParametre(MISSING_NAME))
    ensures args != [] && TakesName(args[0]) && |args| > 2 ==>
              Parse(args) == Err(GecersizParametre(EXTRA_ARGUMENT))
    ensures args != [] && args[0] != "listele" && !TakesName(args[0]) ==>
              Parse(args) == Err(GecersizParametre("bilinmeyen komut: " + args[0]))
  {
  }

  // ---------------------------------------------------------------- the commands

  /** The kernel's answers to what the commands ask of it. */
  datatype Env = Env(
    listAccess: Access,                          // acquire of the installed-packages list
    listChunks: seq<Chunk<byte>>,                // the reads of that list
    utf8: seq<byte> -> bool,                     // whether `from_utf8` accepts the bytes read
    acquire: string -> Access,                   // acquire of a script resource
    spawn: string -> Access,                     // `task::spawn` of that script
    reacquire: string -> Access,                 // a second acquire of the same script
    respawn: string -> Access,                   // a second `task::spawn` of it
    checksum: string -> Result<bool, PaketYoneticisiHatasi>,           // `dogrula_md5` of the download
    unzip: (string, string) -> Result<(), PaketYoneticisiHatasi>)      // `zip_ac` of the download

  /** What a command did: the scripts whose task was started, and its result. */
  datatype Outcome = Outcome(started: seq<string>, result: Result<(), PaketYoneticisiHatasi>)

  /** `list_packages`: a missing list means no packages yet; unreadable or non-UTF-8 contents are errors. */
  function Listed(env: Env): Result<(), PaketYoneticisiHatasi> {
    match env.listAccess
    case Denied(e) => if e == ResourceNotFound then Ok(()) else Err(FromSahne(e))
    case Granted =>
      match Drain(env.listChunks)
      case Err(e) => Err(FromSahne(e))
      case Ok(bytes) => if env.utf8(bytes) then Ok(()) else Err(GecersizParametre("Paket listesi içeriği UTF-8 değil"))
  }

  method ListPackages(env: Env) returns (r: Result<(), PaketYoneticisiHatasi>)
    ensures r == Listed(env)
  {
    if env.listAccess == Denied(ResourceNotFound) {
      return Ok(());
    }
    var read := ReadAll(env.listAccess, env.listChunks);
    match read
    case Err(e) => r := Err(FromSahne(e));
    case Ok(bytes) =>
      r := if env.utf8(bytes) then Ok(()) else Err(GecersizParametre("Paket listesi içeriği UTF-8 değil"));
  }

  /** A missing list is not an error, and any other refusal is. */
  lemma ListedMissing(env: Env)
    ensures env.listAccess == Denied(ResourceNotFound) ==> Listed(env) == Ok(())
    ensures env.listAccess.Denied? && env.listAccess.error != ResourceNotFound ==> Listed(env).Err?
  {
  }

  function InstallScript(name: string): string {
    PACKAGE_SCRIPT_BASE_RESOURCE + name + "/install.sh"
  }

  function UninstallScript(name: string): string {
    PACKAGE_SCRIPT_BASE_RESOURCE + name + "/uninstall.sh"
  }

  /** The two script ids of a package lie under the script base, differ from each other, and name the package. */
  lemma ScriptIds(name: string, other: string)
    ensures InstallScript(name)[..|PACKAGE_SCRIPT_BASE_RESOURCE|] == PACKAGE_SCRIPT_BASE_RESOURCE
    ensures InstallScript(name) != UninstallScript(name)
    ensures InstallScript(name) == InstallScript(other) ==> name == other
    ensures UninstallScript(name) == UninstallScript(other) ==> name == other
  {
    var b := |PACKAGE_SCRIPT_BASE_RESOURCE|;
    assert InstallScript(name)[b..b + |name|] == name;
    assert UninstallScript(name)[b..b + |name|] == name;
    if InstallScript(name) == InstallScript(other) {
      assert |name| == |other|;
      assert InstallScript(other)[b..b + |other|] == other;
    }
    if UninstallScript(name) == UninstallScript(other) {
      assert |name| == |other|;
      assert UninstallScript(other)[b..b + |other|] == other;
    }
    assert |InstallScript(name)| != |UninstallScript(name)|;
  }

  /** Acquire a script and start it as a task; `missingIsOk` is `remove_package`'s tolerance of a missing script. */
  function RunScript(id: string, missingIsOk: bool, env: Env): (o: Outcome)
    ensures o.result.Ok? <==> (env.acquire(id).Granted? && env.spawn(id).Granted?) ||
                              (missingIsOk && env.acquire(id) == Denied(ResourceNotFound))
    ensures o.started == (if env.acquire(id).Granted? && env.spawn(id).Granted? then [id] else [])
  {
    match env.acquire(id)
    case Denied(e) => Outcome([], if missingIsOk && e == ResourceNotFound then Ok(()) else Err(FromSahne(e)))
    case Granted =>
      match env.spawn(id)
      case Denied(e) => Outcome([], Err(FromSahne(e)))
      case Granted => Outcome([id], Ok(()))
  }

  /** `add_package`: run the package's install script. */
  function AddPackage(name: string, env: Env): Outcome {
    RunScript(InstallScript(name), false, env)
  }

  /** `remove_package`: run the uninstall script; a package without one is removed without error. */
  function RemovePackage(name: string, env: Env): Outcome {
    RunScript(UninstallScript(name), true, env)
  }

  lemma RemoveWithoutScript(name: string, env: Env)
    requires env.acquire(UninstallScript(name)) == Denied(ResourceNotFound)
    ensures RemovePackage(name, env) == Outcome([], Ok(()))
  {
  }

  function DownloadDest(name: string): string {
    "sahne://cache/packages/" + name + ".zip"
  }

  function ExtractDest(name: string): string {
    "sahne://installed_packages/" + name + "/"
  }

  /** The checksum and extraction steps of `install_package`, before any script runs. */
  function Prepare(name: string, env: Env): Result<(), PaketYoneticisiHatasi> {
    match env.checksum(DownloadDest(name))
    case Err(e) => Err(e)
    case Ok(valid) =>
      if !valid then Err(PaketKurulumHatasi("Checksum doğrulaması başarısız"))
      else env.unzip(DownloadDest(name), ExtractDest(name))
  }

  /** The kernel as the second `add_package` of one installation finds it. */
  function Again(env: Env): Env {
    env.(acquire := env.reacquire, spawn := env.respawn)
  }

  /**
   * `install_package` as written: after checksum and extraction it calls
   * `add_package` twice, and the kernel answers the second call afresh.
   */
  function InstallPackageAsWritten(name: string, env: Env): Outcome {
    match Prepare(name, env)
    case Err(e) => Outcome([], Err(e))
    case Ok(_) =>
      var first := AddPackage(name, env);
      if first.result.Err? then first
      else
        var second := AddPackage(name, Again(env));
        Outcome(first.started + second.started, second.result)
  }

  /** As written, a successful installation starts the install script twice. */
  lemma InstallAsWrittenRunsScriptTwice(name: string, env: Env)
    requires InstallPackageAsWritten(name, env).result.Ok?
    ensures InstallPackageAsWritten(name, env).started == [InstallScript(name), InstallScript(name)]
  {
  }

  /** `install_package` with the install script started once. */
  function InstallPackage(name: string, env: Env): Outcome {
    match Prepare(name, env)
    case Err(e) => Outcome([], Err(e))
    case Ok(_) => AddPackage(name, env)
  }

  /**
   * An installation succeeds exactly when the download verifies, extracts
   * and its install script starts, and then that script is started once.
   */
  lemma InstallPackageSpec(name: string, env: Env)
    ensures InstallPackage(name, env).result.Ok? <==>
              env.checksum(DownloadDest(name)) == Ok(true) &&
              env.unzip(DownloadDest(name), ExtractDest(name)).Ok? &&
              env.acquire(InstallScript(name)).Granted? && env.spawn(InstallScript(name)).Granted?
    ensures InstallPackage(name, env).result.Ok? ==> InstallPackage(name, env).started == [InstallScript(name)]
    ensures env.checksum(DownloadDest(name)) == Ok(false) ==>
              InstallPackage(name, env) == Outcome([], Err(PaketKurulumHatasi("Checksum doğrulaması başarısız")))
  {
  }

  /**
   * `install_package` as written fails where the single-start installation
   * fails; where that one succeeds, it returns what the second start of the
   * install script gives. It starts nothing but the install script.
   */
  lemma InstallAsWrittenResult(name: string, env: Env)
    ensures InstallPackage(name, env).result.Err? ==>
              InstallPackageAsWritten(name, env).result == InstallPackage(name, env).result
    ensures InstallPackage(name, env).result.Ok? ==>
              InstallPackageAsWritten(name, env).result == AddPackage(name, Again(env)).result
    ensures forall id :: id in InstallPackageAsWritten(name, env).started ==> id == InstallScript(name)
  {
  }

  /**
   * When the kernel answers the second acquire and spawn of the install
   * script as it answered the first, the result is that of the
   * single-start installation.
   */
  lemma InstallAsWrittenSameResult(name: string, env: Env)
    requires env.reacquire(InstallScript(name)) == env.acquire(InstallScript(name))
    requires env.respawn(InstallScript(name)) == env.spawn(InstallScript(name))
    ensures InstallPackageAsWritten(name, env).result == InstallPackage(name, env).result
  {
  }

  /**
   * When the kernel refuses the second start after granting the first, the
   * installation as written fails with that refusal, where the single-start
   * installation succeeds with the script running.
   */
  lemma InstallAsWrittenSecondRefused(name: string, env: Env)
    requires InstallPackage(name, env).result.Ok?
    requires env.reacquire(InstallScript(name)).Denied?
    ensures InstallPackageAsWritten(name, env) ==
              Outcome([InstallScript(name)], Err(FromSahne(env.reacquire(InstallScript(name)).error)))
  {
  }

  /**
   * The result of running a parsed command, `install_package` as written;
   * `search_package` only prints.
   */
  function Execute(c: Command, env: Env): (o: Outcome)
    ensures c.Usage? || c.Listele? || c.Ara? ==> o.started == []
    ensures c.Usage? || c.Ara? ==> o.result == Ok(())
    ensures c.Kur? ==> o.result == (if InstallPackage(c.name, env).result.Err? then InstallPackage(c.name, env).result
                                   else AddPackage(c.name, Again(env)).result)
    ensures c.Kur? && o.result.Ok? ==> o.started == [InstallScript(c.name), InstallScript(c.name)]
    ensures c.Ekle? || c.Kur? ==> forall id :: id in o.started ==> id == InstallScript(c.name)
    ensures c.Kaldir? ==> forall id :: id in o.started ==> id == UninstallScript(c.name)
  {
    match c
    case Usage => Outcome([], Ok(()))
    case Listele => Outcome([], Listed(env))
    case Ekle(n) => AddPackage(n, env)
    case Kaldir(n) => RemovePackage(n, env)
    case Ara(_) => Outcome([], Ok(()))
    case Kur(n) =>
      InstallAsWrittenResult(n, env);
      InstallPackageAsWritten(n, env)
  }

  function ExitCode(r: Result<(), PaketYoneticisiHatasi>): int {
    if r.Ok? then 0 else -1
  }

  /**
   * `main`: parse the arguments, run the command, report 0 or -1. The code is
   * 0 exactly when the arguments form a command and that command succeeds.
   */
  function ExitStatus(argv: Option<seq<Option<string>>>, env: Env): (code: int)
    ensures code == 0 || code == -1
    ensures code == 0 <==> Parse(Arguments(argv)).Ok? && Execute(Parse(Arguments(argv)).value, env).result.Ok?
  {
    match Parse(Arguments(argv))
    case Err(_) => -1
    case Ok(c) => ExitCode(Execute(c, env).result)
  }

  /** No command at all prints the usage and exits with 0. */
  lemma ExitStatusCodes(argv: Option<seq<Option<string>>>, env: Env)
    ensures Arguments(argv) == [] ==> ExitStatus(argv, env) == 0
  {
  }

  /**
   * When every second acquire and spawn of a script is answered as the
   * first was, starting the install script once instead of twice would not
   * change any exit code.
   */
  lemma ExitStatusIgnoresSecondStart(argv: Option<seq<Option<string>>>, env: Env)
    requires env.reacquire == env.acquire && env.respawn == env.spawn
    ensures ExitStatus(argv, env) ==
              match Parse(Arguments(argv))
              case Err(_) => -1
              case Ok(c) => ExitCode(if c.Kur? then InstallPackage(c.name, env).result else Execute(c, env).result)
  {
  }
  /** `kur` exits with -1 when the second start is refused, though the single-start installation would exit with 0. */
  lemma ExitStatusSecondStartRefused(argv: Option<seq<Option<string>>>, env: Env, name: string)
    requires Parse(Arguments(argv)) == Ok(Kur(name))
    requires InstallPackage(name, env).result.Ok? && env.reacquire(InstallScript(name)).Denied?
    ensures ExitStatus(argv, env) == -1 && ExitCode(InstallPackage(name, env).result) == 0
  {
    InstallAsWrittenSecondRefused(name, env);
  }
}
