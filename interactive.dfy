/**
 * The interactive shell of src/srcinteractive.rs: read a line from the
 * console, split it into a command name and its arguments, run the handler
 * registered under that name, and keep going until a command fails or
 * `exit` ends the process. Console reads and the kernel calls handlers make
 * are answers passed in; what a handler prints is returned as text.
 */
module Interactive {
  import opened Wrappers
  import opened Text
  import opened Resource
  import opened Errors

  // ---------------------------------------------------------------- reading a line

  predicate HasNewline(d: seq<byte>) {
    NEWLINE in d
  }

  /**
   * The bytes `get_input` collects: chunks until an end-of-resource (empty)
   * chunk, the end of the chunks, or a chunk that holds a newline, which
   * is kept whole.
   */
  function ReadLine(chunks: seq<Chunk<byte>>): Result<seq<byte>, SahneError> {
    if chunks == [] then Ok([])
    else match chunks[0]
      case ReadFailed(e) => Err(e)
      case Data(d) =>
        if d == [] || HasNewline(d) then Ok(d)
        else match ReadLine(chunks[1..])
          case Ok(rest) => Ok(d + rest)
          case Err(e) => Err(e)
  }

  /** `get_input` without its prompt: the line read, decoded as UTF-8 and trimmed. */
  function Input(chunks: seq<Chunk<byte>>, decode: seq<byte> -> Option<string>): Result<string, PaketYoneticisiHatasi> {
    match ReadLine(chunks)
    case Err(e) => Err(FromSahne(e))
    case Ok(bytes) =>
      match decode(bytes)
      case None => Err(PaketYoneticisiHatasi.ParsingError("Geçersiz UTF-8 girdi"))
      case Some(s) => Ok(Trim(s))
  }

  method GetInput(chunks: seq<Chunk<byte>>, decode: seq<byte> -> Option<string>)
    returns (r: Result<string, PaketYoneticisiHatasi>)
    ensures r == Input(chunks, decode)
  {
    var buffer: seq<byte> := [];
    var i := 0;
    assert chunks[i..] == chunks;
    PrefixEmpty(ReadLine(chunks));
    while i < |chunks|
      invariant 0 <= i <= |chunks|
      invariant ReadLine(chunks) == Prefix(buffer, ReadLine(chunks[i..]))
    {
      assert chunks[i..][0] == chunks[i] && chunks[i..][1..] == chunks[i + 1..];
      match chunks[i]
      case ReadFailed(e) =>
        return Err(FromSahne(e));
      case Data(d) =>
        PrefixAppend(buffer, d, ReadLine(chunks[i + 1..]));
        buffer := buffer + d;
        if d == [] || HasNewline(d) {
          break;
        }
      i := i + 1;
    }
    if i == |chunks| {
      assert chunks[i..] == [];
      assert buffer + [] == buffer;
    }
    match decode(buffer)
    case None => r := Err(PaketYoneticisiHatasi.ParsingError("Geçersiz UTF-8 girdi"));
    case Some(s) => r := Ok(Trim(s));
  }

  function Prefix(p: seq<byte>, r: Result<seq<byte>, SahneError>): Result<seq<byte>, SahneError> {
    match r
    case Ok(rest) => Ok(p + rest)
    case Err(e) => Err(e)
  }

  lemma PrefixEmpty(r: Result<seq<byte>, SahneError>)
    ensures Prefix([], r) == r
  {
    if r.Ok? {
      assert [] + r.value == r.value;
    }
  }

  lemma PrefixAppend(p: seq<byte>, d: seq<byte>, r: Result<seq<byte>, SahneError>)
    ensures Prefix(p, Prefix(d, r)) == Prefix(p + d, r)
  {
    if r.Ok? {
      assert p + (d + r.value) == (p + d) + r.value;
    }
  }

  /**
   * A line that arrives in several chunks is read up to and including the
   * first chunk with a newline; whatever the console holds after it stays unread.
   */
  lemma {:induction false} ReadLineStopsAtNewline(before: seq<seq<byte>>, last: seq<byte>, after: seq<Chunk<byte>>)
    requires forall k :: 0 <= k < |before| ==> before[k] != [] && !HasNewline(before[k])
    requires HasNewline(last)
    ensures ReadLine(Chunks(before) + [Data(last)] + after) == Ok(Concat(before) + last)
  {
    if before == [] {
      assert Chunks(before) + [Data(last)] + after == [Data(last)] + after;
      assert Concat(before) + last == last;
    } else {
      var rest := before[1..];
      forall k | 0 <= k < |rest| ensures rest[k] != [] && !HasNewline(rest[k]) {
        assert rest[k] == before[k + 1];
      }
      ReadLineStopsAtNewline(rest, last, after);
      assert before == [before[0]] + rest;
      assert Chunks(rest) + [Data(last)] + after == Chunks(rest) + ([Data(last)] + after);
      assert Chunks(before) + [Data(last)] + after == Chunks(before) + ([Data(last)] + after);
      ReadLineStep(before[0], rest, [Data(last)] + after, Concat(rest) + last);
      assert Concat(before) + last == before[0] + (Concat(rest) + last);
    }
  }

  /** One more chunk without a newline in front: its bytes come first. */
  lemma ReadLineStep(d: seq<byte>, rest: seq<seq<byte>>, after: seq<Chunk<byte>>, v: seq<byte>)
    requires d != [] && !HasNewline(d)
    requires ReadLine(Chunks(rest) + after) == Ok(v)
    ensures ReadLine(Chunks([d] + rest) + after) == Ok(d + v)
  {
    assert ([d] + rest)[1..] == rest;
    assert Chunks([d] + rest) + after == [Data(d)] + (Chunks(rest) + after);
    ReadLineCons(d, Chunks(rest) + after);
  }

  /** A non-empty chunk without a newline is followed by whatever the next reads give. */
  lemma ReadLineCons(d: seq<byte>, rest: seq<Chunk<byte>>)
    requires d != [] && !HasNewline(d)
    ensures ReadLine([Data(d)] + rest) == Prefix(d, ReadLine(rest))
  {
    assert ([Data(d)] + rest)[1..] == rest;
  }

  function Chunks(ds: seq<seq<byte>>): (r: seq<Chunk<byte>>)
    ensures |r| == |ds|
  {
    if ds == [] then [] else [Data(ds[0])] + Chunks(ds[1..])
  }

  function Concat(ds: seq<seq<byte>>): seq<byte> {
    if ds == [] then [] else ds[0] + Concat(ds[1..])
  }

  /** The line handed on has no surrounding white space, and decoding failures are parse errors. */
  lemma InputTrimmed(chunks: seq<Chunk<byte>>, decode: seq<byte> -> Option<string>)
    ensures Input(chunks, decode).Ok? ==> Trim(Input(chunks, decode).value) == Input(chunks, decode).value
    ensures ReadLine(chunks).Ok? && decode(ReadLine(chunks).value).None? ==>
              Input(chunks, decode) == Err(PaketYoneticisiHatasi.ParsingError("Geçersiz UTF-8 girdi"))
  {
    if Input(chunks, decode).Ok? {
      TrimIdempotent(decode(ReadLine(chunks).value).value);
    }
  }

  // ---------------------------------------------------------------- handlers

  /** The command handlers of the file; `Help` carries the name-to-description map it was built with. */
  datatype Handler = Hello | Date | Exit | Echo | Ls | Clear | Help(info: map<string, string>)

  function Description(h: Handler): string {
    match h
    case Hello => "Basit bir merhaba mesajı gösterir."
    case Date => "Sistem tarihini gösterir (yeni görev olarak başlatır)."
    case Exit => "Programdan çıkar (görevi sonlandırır)."
    case Echo => "Verilen argümanları ekrana yazdırır. Kullanım: echo [mesaj]"
    case Ls => "Dizin içeriğini listeler (yeni görev olarak başlatır)."
    case Clear => "Ekranı temizler (yeni görev olarak başlatır)."
    case Help(_) => "Kullanılabilir komutları ve açıklamalarını listeler."
  }

  /** The kernel's answers to `acquire` and `task::spawn`, per program resource. */
  datatype Kernel = Kernel(acquire: string -> Access, spawn: string -> Access)

  /**
   * What running a command did: nothing (a blank line), printed a line,
   * started the program behind a resource as a new task, listed the help
   * table, failed, or ended the process.
   */
  datatype Reply =
    | Idle
    | Printed(text: string)
    | Spawned(program: string)
    | Listed(info: map<string, string>)
    | Failed(error: PaketYoneticisiHatasi)
    | Exited

  /** Start the program behind a placeholder command as a new task; its handle is released either way. */
  function Spawn(id: string, k: Kernel): (r: Reply)
    ensures r == Spawned(id) <==> k.acquire(id).Granted? && k.spawn(id).Granted?
    ensures r != Spawned(id) ==> r.Failed?
    ensures r.Failed? ==> r.error == FromSahne(if k.acquire(id).Denied? then k.acquire(id).error else k.spawn(id).error)
  {
    match k.acquire(id)
    case Denied(e) => Failed(FromSahne(e))
    case Granted =>
      match k.spawn(id)
      case Denied(e) => Failed(FromSahne(e))
      case Granted => Spawned(id)
  }

  /** `execute` of each handler. */
  function Execute(h: Handler, args: seq<string>, k: Kernel): Reply {
    match h
    case Hello => Printed("Merhaba!")
    case Date => Spawn("sahne://bin/date", k)
    case Exit => Exited
    case Echo => Printed(Join(args, " "))
    case Ls => Spawn("sahne://bin/ls", k)
    case Clear => Spawn("sahne://bin/clear", k)
    case Help(info) => Listed(info)
  }

  /** The lines `help` prints: a heading, then one line per command, in the order the table is walked. */
  method HelpLines(info: map<string, string>) returns (lines: seq<string>)
    ensures |lines| == |info| + 1 && lines[0] == "Kullanılabilir komutlar:"
    ensures forall name :: name in info ==> HelpLine(name, info[name]) in lines[1..]
    ensures forall i :: 1 <= i < |lines| ==> IsHelpLine(info, lines[i])
  {
    lines := ["Kullanılabilir komutlar:"];
    ghost var names: seq<string> := [];
    ghost var done: set<string> := {};
    var remaining := info.Keys;
    while remaining != {}
      invariant HelpSoFar(info, lines, names, done, remaining)
      decreases |remaining|
    {
      var name :| name in remaining;
      HelpStep(info, lines, names, done, remaining, name);
      lines := lines + [HelpLine(name, info[name])];
      names := names + [name];
      done := done + {name};
      remaining := remaining - {name};
    }
    assert done == info.Keys;
    HelpLinesCover(info, names, lines);
  }

  /** The loop of `help` so far: the heading, then a line for each name walked, `done` walked and `remaining` not. */
  ghost predicate HelpSoFar(info: map<string, string>, lines: seq<string>, names: seq<string>,
                            done: set<string>, remaining: set<string>) {
    && done + remaining == info.Keys && done !! remaining
    && |lines| == |names| + 1 && |names| == |done| && lines[0] == "Kullanılabilir komutlar:"
    && (forall j :: 0 <= j < |names| ==> names[j] in info && lines[j + 1] == HelpLine(names[j], info[names[j]]))
    && (forall name :: name in done ==> name in names)
  }

  lemma HelpStep(info: map<string, string>, lines: seq<string>, names: seq<string>,
                 done: set<string>, remaining: set<string>, name: string)
    requires HelpSoFar(info, lines, names, done, remaining) && name in remaining
    ensures HelpSoFar(info, lines + [HelpLine(name, info[name])], names + [name], done + {name}, remaining - {name})
    ensures |remaining - {name}| < |remaining|
  {
    var lines', names' := lines + [HelpLine(name, info[name])], names + [name];
    forall j | 0 <= j < |names'|
      ensures names'[j] in info && lines'[j + 1] == HelpLine(names'[j], info[names'[j]])
    {
      if j < |names| {
        assert names'[j] == names[j] && lines'[j + 1] == lines[j + 1];
      }
    }
  }

  /** Lines indexed by a list of names that covers the table list every command, and only commands. */
  lemma HelpLinesCover(info: map<string, string>, names: seq<string>, lines: seq<string>)
    requires |lines| == |names| + 1
    requires forall j :: 0 <= j < |names| ==> names[j] in info && lines[j + 1] == HelpLine(names[j], info[names[j]])
    requires forall name :: name in info ==> name in names
    ensures forall name :: name in info ==> HelpLine(name, info[name]) in lines[1..]
    ensures forall i :: 1 <= i < |lines| ==> IsHelpLine(info, lines[i])
  {
    forall name | name in info
      ensures HelpLine(name, info[name]) in lines[1..]
    {
      var j :| 0 <= j < |names| && names[j] == name;
      assert lines[1..][j] == lines[j + 1];
    }
    forall i | 1 <= i < |lines|
      ensures IsHelpLine(info, lines[i])
    {
      var name := names[i - 1];
      assert name in info && lines[i] == HelpLine(name, info[name]);
    }
  }

  /** A line `help` prints for some command of the table. */
  predicate IsHelpLine(info: map<string, string>, line: string) {
    exists name :: name in info && line == HelpLine(name, info[name])
  }

  function HelpLine(name: string, description: string): string {
    "- " + name + ": " + description
  }

  /** `handle_command`: the first word names the handler, the other words are its arguments. */
  function HandleCommand(line: string, commands: map<string, Handler>, k: Kernel): Reply {
    var parts := SplitWhitespace(line);
    if parts == [] then Idle
    else if parts[0] in commands then Execute(commands[parts[0]], parts[1..], k)
    else Failed(InvalidParameter("Bilinmeyen komut: " + parts[0]))
  }

  /** A line of white space only, and only such a line, does nothing. */
  lemma HandleCommandIdle(line: string, commands: map<string, Handler>, k: Kernel)
    ensures AllWhite(line) <==> HandleCommand(line, commands, k) == Idle
  {
    SplitWhitespaceEmptyIff(line);
    var parts := SplitWhitespace(line);
    if parts != [] && parts[0] in commands {
      ExecuteNeverIdle(commands[parts[0]], parts[1..], k);
    }
  }

  lemma ExecuteNeverIdle(h: Handler, args: seq<string>, k: Kernel)
    ensures Execute(h, args, k) != Idle
  {
  }

  /**
   * The first word picks the handler, whose reply is returned unchanged
   * with the other words as its arguments, and an unknown word is refused.
   */
  lemma HandleCommandSpec(name: string, args: seq<string>, commands: map<string, Handler>, k: Kernel)
    requires name != [] && !ContainsWhite(name)
    requires forall i :: 0 <= i < |args| ==> args[i] != [] && !ContainsWhite(args[i])
    ensures name in commands ==>
              HandleCommand(Join([name] + args, " "), commands, k) == Execute(commands[name], args, k)
    ensures name !in commands ==>
              HandleCommand(Join([name] + args, " "), commands, k) == Failed(InvalidParameter("Bilinmeyen komut: " + name))
  {
    var ws := [name] + args;
    assert forall i :: 0 <= i < |ws| ==> ws[i] != [] && !ContainsWhite(ws[i]);
    SplitWhitespaceJoin(ws);
    assert ws[1..] == args;
  }

  /** `echo` prints its arguments so that splitting the printed text gives them back. */
  lemma EchoRoundTrip(line: string, commands: map<string, Handler>, k: Kernel)
    requires "echo" in commands && commands["echo"] == Echo
    requires SplitWhitespace(line) != [] && SplitWhitespace(line)[0] == "echo"
    ensures HandleCommand(line, commands, k).Printed?
    ensures SplitWhitespace(HandleCommand(line, commands, k).text) == SplitWhitespace(line)[1..]
  {
    var parts := SplitWhitespace(line);
    SplitWhitespaceJoin(parts[1..]);
  }

  // ---------------------------------------------------------------- the command table

  /** `HelpCommand::new`: every registered name with its handler's description. */
  method HelpNew(commands: map<string, Handler>) returns (info: map<string, string>)
    ensures info.Keys == commands.Keys
    ensures forall name :: name in info ==> info[name] == Description(commands[name])
  {
    info := map[];
    var remaining := commands.Keys;
    while remaining != {}
      invariant remaining <= commands.Keys
      invariant info.Keys == commands.Keys - remaining
      invariant forall name :: name in info ==> info[name] == Description(commands[name])
      decreases |remaining|
    {
      var name :| name in remaining;
      info := info[name := Description(commands[name])];
      remaining := remaining - {name};
    }
  }

  /** The handlers `main` registers before building `help`. */
  function Registered(): map<string, Handler> {
    map["hello" := Hello, "date" := Date, "exit" := Exit, "ls" := Ls, "echo" := Echo]
  }

  /** The help table of a command table: every name with its handler's description. */
  function Descriptions(commands: map<string, Handler>): map<string, string> {
    map name | name in commands :: Description(commands[name])
  }

  /** The table `main` hands to the loop: `help` joins the five others, and `clear` is never registered. */
  function DefaultTable(): (t: map<string, Handler>)
    ensures t.Keys == {"hello", "date", "exit", "ls", "echo", "help"}
    ensures "clear" !in t
    ensures t["help"].Help? && t["help"].info.Keys == t.Keys - {"help"}
  {
    Registered()["help" := Help(Descriptions(Registered()))]
  }

  method DefaultCommands() returns (commands: map<string, Handler>)
    ensures commands == DefaultTable()
  {
    var registered := Registered();
    var info := HelpNew(registered);
    assert info == Descriptions(registered);
    commands := registered["help" := Help(info)];
  }

  /** A one-word line runs the command of that name with no arguments. */
  lemma OneWord(name: string, commands: map<string, Handler>, k: Kernel)
    requires name != [] && !ContainsWhite(name)
    ensures HandleCommand(name, commands, k) ==
            if name in commands then Execute(commands[name], [], k) else Failed(InvalidParameter("Bilinmeyen komut: " + name))
  {
    HandleCommandSpec(name, [], commands, k);
    assert [name] + [] == [name];
  }

  /** `clear` is defined but never registered, so the shell refuses it. */
  lemma ClearUnregistered(k: Kernel)
    ensures HandleCommand("clear", DefaultTable(), k) == Failed(InvalidParameter("Bilinmeyen komut: clear"))
  {
    LowerCaseWord("clear");
    OneWord("clear", DefaultTable(), k);
    assert "Bilinmeyen komut: " + "clear" == "Bilinmeyen komut: clear";
  }

  /** `help` lists the five commands registered before it, but not itself. */
  lemma HelpOmitsItself(k: Kernel)
    ensures HandleCommand("help", DefaultTable(), k) == Listed(Descriptions(Registered()))
  {
    LowerCaseWord("help");
    var t := DefaultTable();
    assert t["help"] == Help(Descriptions(Registered()));
    OneWord("help", t, k);
  }

  /** What `help` lists: the five commands registered before it. */
  lemma HelpListsRegistered()
    ensures Descriptions(Registered()).Keys == {"hello", "date", "exit", "ls", "echo"}
    ensures "help" !in Descriptions(Registered())
  {
    DescriptionsKeys(Registered());
    RegisteredNames();
  }

  lemma DescriptionsKeys(commands: map<string, Handler>)
    ensures Descriptions(commands).Keys == commands.Keys
  {
  }

  lemma RegisteredNames()
    ensures Registered().Keys == {"hello", "date", "exit", "ls", "echo"}
  {
  }

  /** A word of lower-case letters holds no white space. */
  lemma LowerCaseWord(w: string)
    requires forall i :: 0 <= i < |w| ==> 'a' <= w[i] <= 'z'
    ensures !ContainsWhite(w)
  {
  }

  // ---------------------------------------------------------------- the loop

  /** How the loop ended, if it did: with a failure, through `exit`, or still waiting for input. */
  datatype LoopEnd = Stopped(error: PaketYoneticisiHatasi) | ExitedTask | AwaitingInput

  predicate Continues(r: Reply) {
    !r.Failed? && !r.Exited?
  }

  /**
   * `start_interactive_loop` over the lines the console delivers (each the
   * result of one `get_input`), each line answered by `handle`: the replies
   * that let it go on, and how it ended.
   */
  function Session(inputs: seq<Result<string, PaketYoneticisiHatasi>>, handle: string -> Reply): (seq<Reply>, LoopEnd) {
    if inputs == [] then ([], AwaitingInput)
    else match inputs[0]
      case Err(e) => ([], Stopped(e))
      case Ok(line) =>
        var reply := handle(line);
        if reply.Failed? then ([], Stopped(reply.error))
        else if reply.Exited? then ([], ExitedTask)
        else
          var rest := Session(inputs[1..], handle);
          ([reply] + rest.0, rest.1)
  }

  /** The shell's lines answered by `handle_command` over one command table. */
  function Handle(commands: map<string, Handler>, k: Kernel): string -> Reply {
    line => HandleCommand(line, commands, k)
  }

  function Loop(inputs: seq<Result<string, PaketYoneticisiHatasi>>, commands: map<string, Handler>, k: Kernel)
    : (seq<Reply>, LoopEnd)
  {
    Session(inputs, Handle(commands, k))
  }

  method StartInteractiveLoop(inputs: seq<Result<string, PaketYoneticisiHatasi>>, commands: map<string, Handler>, k: Kernel)
    returns (replies: seq<Reply>, end: LoopEnd)
    ensures (replies, end) == Loop(inputs, commands, k)
  {
    var handle := Handle(commands, k);
    replies := [];
    var i := 0;
    SessionFromSplits(inputs, 0, handle, []);
    assert inputs[0..] == inputs;
    assert [] + Session(inputs, handle).0 == Session(inputs, handle).0;
    while i < |inputs|
      invariant 0 <= i <= |inputs|
      invariant Session(inputs, handle) == SessionFrom(inputs, i, handle, replies)
    {
      if inputs[i].Err? {
        return replies, Stopped(inputs[i].error);
      }
      var reply := handle(inputs[i].value);
      if reply.Failed? {
        return replies, Stopped(reply.error);
      }
      if reply.Exited? {
        return replies, ExitedTask;
      }
      replies := replies + [reply];
      i := i + 1;
    }
    end := AwaitingInput;
  }

  /** The loop from line `i` on, once `replies` have been given. */
  function SessionFrom(inputs: seq<Result<string, PaketYoneticisiHatasi>>, i: nat, handle: string -> Reply,
                       replies: seq<Reply>): (seq<Reply>, LoopEnd)
    requires i <= |inputs|
    decreases |inputs| - i
  {
    if i == |inputs| then (replies, AwaitingInput)
    else match inputs[i]
      case Err(e) => (replies, Stopped(e))
      case Ok(line) =>
        var reply := handle(line);
        if reply.Failed? then (replies, Stopped(reply.error))
        else if reply.Exited? then (replies, ExitedTask)
        else SessionFrom(inputs, i + 1, handle, replies + [reply])
  }

  lemma {:induction false} SessionFromSplits(inputs: seq<Result<string, PaketYoneticisiHatasi>>, i: nat,
                                             handle: string -> Reply, replies: seq<Reply>)
    requires i <= |inputs|
    decreases |inputs| - i
    ensures SessionFrom(inputs, i, handle, replies)
            == (replies + Session(inputs[i..], handle).0, Session(inputs[i..], handle).1)
  {
    if i == |inputs| {
      assert inputs[i..] == [];
      assert replies + [] == replies;
    } else {
      assert inputs[i..][0] == inputs[i] && inputs[i..][1..] == inputs[i + 1..];
      assert replies + [] == replies;
      match inputs[i]
      case Err(e) =>
      case Ok(line) =>
        var reply := handle(line);
        if !reply.Failed? && !reply.Exited? {
          SessionFromSplits(inputs, i + 1, handle, replies + [reply]);
          assert replies + ([reply] + Session(inputs[i + 1..], handle).0)
                 == (replies + [reply]) + Session(inputs[i + 1..], handle).0;
        }
    }
  }

  /**
   * The loop ends at, and returns, the first failing input or command; the
   * replies before it are those of the lines before it, and later lines are
   * never looked at.
   */
  lemma {:induction false} LoopStopsAtFirstError(before: seq<string>, bad: Result<string, PaketYoneticisiHatasi>,
                                                 after: seq<Result<string, PaketYoneticisiHatasi>>,
                                                 commands: map<string, Handler>, k: Kernel, e: PaketYoneticisiHatasi)
    requires forall i :: 0 <= i < |before| ==> Continues(HandleCommand(before[i], commands, k))
    requires bad == Err(e) || (bad.Ok? && HandleCommand(bad.value, commands, k) == Failed(e))
    ensures Loop(OkLines(before) + [bad] + after, commands, k).1 == Stopped(e)
    ensures var replies := Loop(OkLines(before) + [bad] + after, commands, k).0;
            |replies| == |before| &&
            forall i :: 0 <= i < |before| ==> replies[i] == HandleCommand(before[i], commands, k)
  {
    var all := OkLines(before) + [bad] + after;
    if before != [] {
      assert all[0] == Ok(before[0]);
      assert all[1..] == OkLines(before[1..]) + [bad] + after;
      LoopStopsAtFirstError(before[1..], bad, after, commands, k, e);
      var rest := Loop(all[1..], commands, k).0;
      assert Loop(all, commands, k).0 == [HandleCommand(before[0], commands, k)] + rest;
    } else {
      assert all[0] == bad;
    }
  }

  /** `exit` ends the loop at once, with the replies of the lines before it. */
  lemma {:induction false} LoopExits(before: seq<string>, after: seq<Result<string, PaketYoneticisiHatasi>>,
                                     commands: map<string, Handler>, k: Kernel)
    requires forall i :: 0 <= i < |before| ==> Continues(HandleCommand(before[i], commands, k))
    requires "exit" in commands && commands["exit"] == Exit
    ensures Loop(OkLines(before) + [Ok("exit")] + after, commands, k).1 == ExitedTask
    ensures |Loop(OkLines(before) + [Ok("exit")] + after, commands, k).0| == |before|
  {
    var all := OkLines(before) + [Ok("exit")] + after;
    if before != [] {
      assert all[0] == Ok(before[0]);
      assert all[1..] == OkLines(before[1..]) + [Ok("exit")] + after;
      LoopExits(before[1..], after, commands, k);
    } else {
      assert all[0] == Ok("exit");
      HandleCommandSpec("exit", [], commands, k);
      assert Join(["exit"] + [], " ") == "exit";
    }
  }

  function OkLines(lines: seq<string>): (r: seq<Result<string, PaketYoneticisiHatasi>>)
    ensures |r| == |lines| && forall i :: 0 <= i < |lines| ==> r[i] == Ok(lines[i])
  {
    if lines == [] then [] else [Ok(lines[0])] + OkLines(lines[1..])
  }

  /** The process's exit code once the loop has ended: 0 after `exit`, -1 after a failure. */
  function ExitCode(end: LoopEnd): Option<int> {
    match end
    case Stopped(_) => Some(-1)
    case ExitedTask => Some(0)
    case AwaitingInput => None
  }

  /**
   * `main`: register the commands and run the loop on the console's lines.
   * The code is 0 when `exit` ended the process, -1 when a read or a command
   * failed, and absent while the shell still waits for input.
   */
  method Shell(inputs: seq<Result<string, PaketYoneticisiHatasi>>, k: Kernel)
    returns (replies: seq<Reply>, code: Option<int>)
    ensures var (expected, end) := Loop(inputs, DefaultTable(), k);
            replies == expected && code == ExitCode(end)
    ensures code == Some(0) <==> Loop(inputs, DefaultTable(), k).1.ExitedTask?
    ensures code == Some(-1) <==> Loop(inputs, DefaultTable(), k).1.Stopped?
  {
    var commands := DefaultCommands();
    var end;
    replies, end := StartInteractiveLoop(inputs, commands, k);
    code := ExitCode(end);
  }
}
