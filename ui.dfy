/**
 * The text menu of src/srcui.rs: a four-entry menu whose selected entry
 * the arrow keys, the digits 1-4, Enter, q/Q and Esc drive. The key events
 * and the console's answers to writes are passed in; the screens behind the
 * entries are placeholders and are only recorded as opened.
 */
module Ui {
  import opened Wrappers
  import opened Resource
  import opened Errors

  /** The key events the loop tells apart. */
  datatype Key = Up | Down | Enter | Char(c: char) | Esc | OtherKey

  /** What a key does besides changing the selection: nothing, open a screen (entries 1-3), or quit. */
  datatype Action = Stay | OpenScreen(entry: int) | Quit

  predicate InMenu(selected: int) {
    1 <= selected <= 4
  }

  /** The selection after `key`. */
  function Next(selected: int, key: Key): (r: int)
    ensures InMenu(selected) ==> InMenu(r)
    ensures key.Char? && '1' <= key.c <= '4' ==> r == key.c as int - '0' as int
  {
    match key
    case Up => if selected > 1 then selected - 1 else 4
    case Down => if selected < 4 then selected + 1 else 1
    case Char(c) =>
      if c == '1' then 1
      else if c == '2' then 2
      else if c == '3' then 3
      else if c == '4' then 4
      else selected
    case _ => selected
  }

  /** What the loop does with `key` besides the selection change. */
  function Act(selected: int, key: Key): Action {
    match key
    case Enter => if selected == 4 then Quit else if 1 <= selected <= 3 then OpenScreen(selected) else Stay
    case Char(c) => if c == 'q' || c == 'Q' then Quit else Stay
    case Esc => Quit
    case _ => Stay
  }

  /** Up and Down undo each other on every menu entry. */
  lemma UpDownInverse(selected: int)
    requires InMenu(selected)
    ensures Next(Next(selected, Up), Down) == selected
    ensures Next(Next(selected, Down), Up) == selected
  {
  }

  /** Four presses of Up, or of Down, go round the menu back to the start. */
  lemma {:induction false} FullCircle(selected: int, key: Key)
    requires InMenu(selected) && (key == Up || key == Down)
    ensures Next(Next(Next(Next(selected, key), key), key), key) == selected
  {
  }

  /** The loop ends exactly on q, Q, Esc, or Enter on the last entry; only Enter opens a screen. */
  lemma QuitKeys(selected: int, key: Key)
    requires InMenu(selected)
    ensures Act(selected, key) == Quit <==>
              key == Esc || key == Char('q') || key == Char('Q') || (key == Enter && selected == 4)
    ensures Act(selected, key).OpenScreen? <==> key == Enter && selected != 4
    ensures Act(selected, key).OpenScreen? ==> Act(selected, key).entry == selected
  {
  }

  /** Keys other than the arrows and the digits 1-4 leave the selection alone. */
  lemma OtherKeysKeepSelection(selected: int, key: Key)
    requires key != Up && key != Down && !(key.Char? && '1' <= key.c <= '4')
    ensures Next(selected, key) == selected
  {
  }

  // ---------------------------------------------------------------- the screen

  function Digit(n: int): string
    requires 0 <= n <= 9
  {
    [(n + '0' as int) as char]
  }

  /** The menu entries `draw_screen` lists, each with its marker; the menu shows only while entry 1 is selected. */
  function MenuItems(selected: int): seq<string> {
    var items := ["Paketleri Listele", "Paket Ekle", "Paket Kaldır", "Çıkış"];
    if selected == 1 then seq(4, i requires 0 <= i < 4 => (if i + 1 == selected then "> " else "  ") + items[i] + "\n")
    else []
  }

  /** The lines `draw_screen` writes for a selection. */
  function ScreenLines(selected: int): seq<string>
    requires InMenu(selected)
  {
    ["Paket Yöneticisi Arayüzü (Menü " + Digit(selected) + ")\n", "--------------------------\n"]
    + MenuItems(selected)
    + ["\nTuşlar: ↑↓ Enter, Sayılar 1-4, q/Q/Esc\n"]
  }

  /** The menu lists its four entries only when entry 1 is selected, and then marks that entry alone. */
  lemma MenuMarking(selected: int)
    requires InMenu(selected)
    ensures selected != 1 <==> MenuItems(selected) == []
    ensures selected == 1 ==>
              |MenuItems(selected)| == 4 && MenuItems(selected)[0][..2] == "> " &&
              forall i :: 1 <= i < 4 ==> MenuItems(selected)[i][..2] == "  "
    ensures |ScreenLines(selected)| == 3 + |MenuItems(selected)|
  {
  }

  /**
   * What the write loop of `draw_screen` reports as an error: a write that
   * stops accepting bytes is `InvalidOperation`, a refused write its own error.
   */
  function DrawResult(o: WriteOutcome): (r: Result<(), TuiError>)
    ensures r.Ok? <==> o.AllWritten?
    ensures o.Stalled? ==> r == Err(TuiError.Sahne64ResourceError(InvalidOperation))
    ensures o.WriteError? ==> r == Err(TuiError.Sahne64ResourceError(o.error))
  {
    match o
    case AllWritten => Ok(())
    case Stalled(_) => Err(TuiError.Sahne64ResourceError(InvalidOperation))
    case WriteError(e, _) => Err(TuiError.Sahne64ResourceError(e))
  }

  // ---------------------------------------------------------------- the loop

  /** How `run` ended: by a quitting key, by a failed redraw, or still waiting for keys. */
  datatype RunEnd = Quitted | DrawFailed(error: PaketYoneticisiHatasi) | AwaitingKey

  /**
   * The loop from `selected` over `keys`, where redraw number `i` ends as
   * `draws(i)`: the screen is redrawn before every key, and a failed redraw
   * ends the loop. Returns the screens opened, the final selection and how
   * it ended.
   */
  function Session(selected: int, keys: seq<Key>, draws: nat -> WriteOutcome, i: nat)
    : (r: (seq<int>, int, RunEnd))
    requires InMenu(selected)
    decreases |keys|
    ensures InMenu(r.1)
    ensures forall j :: 0 <= j < |r.0| ==> 1 <= r.0[j] <= 3
  {
    if keys == [] then ([], selected, AwaitingKey)
    else match DrawResult(draws(i))
      case Err(e) => ([], selected, DrawFailed(FromTui(e)))
      case Ok(_) =>
        match Act(selected, keys[0])
        case Quit => ([], Next(selected, keys[0]), Quitted)
        case OpenScreen(n) =>
          var rest := Session(Next(selected, keys[0]), keys[1..], draws, i + 1);
          ([n] + rest.0, rest.1, rest.2)
        case Stay =>
          Session(Next(selected, keys[0]), keys[1..], draws, i + 1)
  }

  /** The loop stops at the first quitting key, whatever follows it. */
  lemma {:induction false} SessionStopsAtQuit(selected: int, keys: seq<Key>, draws: nat -> WriteOutcome, i: nat, q: Key, rest: seq<Key>)
    requires InMenu(selected)
    requires forall n :: i <= n <= i + |keys| ==> draws(n).AllWritten?
    requires forall j :: 0 <= j < |keys| ==> Act(Sel(selected, keys[..j]), keys[j]) != Quit
    requires Act(Sel(selected, keys), q) == Quit
    decreases |keys|
    ensures Session(selected, keys + [q] + rest, draws, i).2 == Quitted
    ensures Session(selected, keys + [q] + rest, draws, i).1 == Next(Sel(selected, keys), q)
  {
    var all := keys + [q] + rest;
    if keys == [] {
      assert all[0] == q && all[1..] == rest;
    } else {
      assert all[0] == keys[0] && all[1..] == keys[1..] + [q] + rest;
      assert keys[..0] == [];
      var s := Next(selected, keys[0]);
      forall j | 0 <= j < |keys[1..]|
        ensures Act(Sel(s, keys[1..][..j]), keys[1..][j]) != Quit
      {
        assert keys[..j + 1] == [keys[0]] + keys[1..][..j];
        SelCons(selected, keys[0], keys[1..][..j]);
        assert Act(Sel(selected, keys[..j + 1]), keys[j + 1]) != Quit;
      }
      SelCons(selected, keys[0], keys[1..]);
      assert [keys[0]] + keys[1..] == keys;
      SessionStopsAtQuit(s, keys[1..], draws, i + 1, q, rest);
    }
  }

  /** One turn of the loop on the key at position `i`. */
  lemma SessionStep(selected: int, keys: seq<Key>, draws: nat -> WriteOutcome, i: nat)
    requires InMenu(selected) && i < |keys|
    ensures var s := Session(selected, keys[i..], draws, i);
            var next := Next(selected, keys[i]);
            var t := Session(next, keys[i + 1..], draws, i + 1);
            s == match DrawResult(draws(i))
                 case Err(e) => ([], selected, DrawFailed(FromTui(e)))
                 case Ok(_) =>
                   match Act(selected, keys[i])
                   case Quit => ([], next, Quitted)
                   case OpenScreen(n) => ([n] + t.0, t.1, t.2)
                   case Stay => t
  {
    assert keys[i..][0] == keys[i] && keys[i..][1..] == keys[i + 1..];
  }

  /** The selection after pressing `keys` in order. */
  function Sel(selected: int, keys: seq<Key>): int
    decreases keys
  {
    if keys == [] then selected else Sel(Next(selected, keys[0]), keys[1..])
  }

  lemma SelCons(selected: int, k: Key, keys: seq<Key>)
    ensures Sel(selected, [k] + keys) == Sel(Next(selected, k), keys)
  {
    assert ([k] + keys)[1..] == keys;
  }

  /** The console's UI: its selection is the only state the key loop changes. */
  class PackageManagerUI {
    var selectedMenu: int

    predicate Valid()
      reads this
    {
      InMenu(selectedMenu)
    }

    constructor ()
      ensures Valid() && selectedMenu == 1
    {
      selectedMenu := 1;
    }

    /**
     * `PackageManagerUI::new`: acquire the console output for writing, then
     * the console input for reading (releasing the output if that fails);
     * the selection starts at entry 1.
     */
    static method New(output: Access, input: Access) returns (r: Result<PackageManagerUI, TuiError>)
      ensures r.Ok? <==> output.Granted? && input.Granted?
      ensures output.Denied? ==> r == Err(TuiError.Sahne64ResourceError(output.error))
      ensures output.Granted? && input.Denied? ==> r == Err(TuiError.Sahne64ResourceError(input.error))
      ensures r.Ok? ==> fresh(r.value) && r.value.Valid() && r.value.selectedMenu == 1
    {
      match output
      case Denied(e) =>
        r := Err(TuiError.Sahne64ResourceError(e));
      case Granted =>
        match input
        case Denied(e) =>
          r := Err(TuiError.Sahne64ResourceError(e));
        case Granted =>
          var ui := new PackageManagerUI();
          r := Ok(ui);
    }

    /** One key of `run`'s loop. */
    method HandleKey(key: Key) returns (action: Action)
      requires Valid()
      modifies this
      ensures Valid()
      ensures selectedMenu == Next(old(selectedMenu), key)
      ensures action == Act(old(selectedMenu), key)
    {
      action := Act(selectedMenu, key);
      match key
      case Up =>
        selectedMenu := if selectedMenu > 1 then selectedMenu - 1 else 4;
      case Down =>
        selectedMenu := if selectedMenu < 4 then selectedMenu + 1 else 1;
      case Char(c) =>
        if c == '1' {
          selectedMenu := 1;
        } else if c == '2' {
          selectedMenu := 2;
        } else if c == '3' {
          selectedMenu := 3;
        } else if c == '4' {
          selectedMenu := 4;
        }
      case _ =>
    }

    /** `run`: redraw, read a key, act on it, until a quitting key or a failed redraw. */
    method Run(keys: seq<Key>, draws: nat -> WriteOutcome) returns (screens: seq<int>, end: RunEnd)
      requires Valid()
      modifies this
      ensures Valid()
      ensures (screens, selectedMenu, end) == Session(old(selectedMenu), keys, draws, 0)
    {
      screens := [];
      var i := 0;
      ghost var start := selectedMenu;
      assert keys[i..] == keys;
      assert screens + Session(start, keys, draws, 0).0 == Session(start, keys, draws, 0).0;
      while i < |keys|
        invariant 0 <= i <= |keys|
        invariant Valid()
        invariant var s := Session(selectedMenu, keys[i..], draws, i);
                  Session(start, keys, draws, 0) == (screens + s.0, s.1, s.2)
      {
        SessionStep(selectedMenu, keys, draws, i);
        var drawn := DrawResult(draws(i));
        if drawn.Err? {
          assert screens + [] == screens;
          return screens, DrawFailed(FromTui(drawn.error));
        }
        var action := HandleKey(keys[i]);
        if action == Quit {
          assert screens + [] == screens;
          return screens, Quitted;
        }
        if action.OpenScreen? {
          var rest := Session(selectedMenu, keys[i + 1..], draws, i + 1);
          assert screens + ([action.entry] + rest.0) == (screens + [action.entry]) + rest.0;
          screens := screens + [action.entry];
        }
        i := i + 1;
      }
      assert keys[i..] == [];
      assert screens + [] == screens;
      end := AwaitingKey;
    }
  }
}
