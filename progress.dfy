/**
 * The progress bar of src/srcprogress.rs: an object whose `current` count
 * the package manager advances and which redraws itself on the console
 * after every change. The clock (`task::current_time_us`) and the console
 * write are answers passed in; the drawn text is not modelled.
 */
module Progress {
  import opened Wrappers
  import opened Resource
  import opened Errors

  /** `min(value, total)`: the count a change leaves behind. */
  function Clamp(value: nat, total: nat): (r: nat)
    ensures r <= total && r <= value
    ensures r == value || r == total
  {
    if value > total then total else value
  }

  /**
   * What `draw` returns: the clock is read first and its failure is an API
   * error; a refused console write goes through `From<SahneError>`. A
   * failed flush is only logged.
   */
  function Draw(clock: Result<nat, SahneError>, write: Access): (r: Result<(), PaketYoneticisiHatasi>)
    ensures r.Ok? <==> clock.Ok? && write.Granted?
    ensures clock.Err? ==> r == Err(SahneApiHatasi(clock.error))
    ensures clock.Ok? && write.Denied? ==> r == Err(FromSahne(write.error))
  {
    match clock
    case Err(e) => Err(SahneApiHatasi(e))
    case Ok(_) =>
      match write
      case Denied(e) => Err(FromSahne(e))
      case Granted => Ok(())
  }

  class ProgressBar {
    var total: nat
    var current: nat
    var width: nat
    var startTimeUs: nat
    var message: string
    var filledChar: char
    var emptyChar: char
    var showPercentage: bool
    var showTime: bool

    /** The count never passes the total once the bar exists. */
    predicate Valid()
      reads this
    {
      current <= total
    }

    constructor (total: nat, width: nat, startTimeUs: nat, filledChar: char, emptyChar: char,
                 showPercentage: bool, showTime: bool)
      ensures Valid()
      ensures this.total == total && current == 0 && this.width == width && this.startTimeUs == startTimeUs
      ensures message == [] && this.filledChar == filledChar && this.emptyChar == emptyChar
      ensures this.showPercentage == showPercentage && this.showTime == showTime
    {
      this.total := total;
      current := 0;
      this.width := width;
      this.startTimeUs := startTimeUs;
      message := [];
      this.filledChar := filledChar;
      this.emptyChar := emptyChar;
      this.showPercentage := showPercentage;
      this.showTime := showTime;
    }

    /** `ProgressBar::new`: '#' on ' ', with the percentage and without the time; fails when the clock does. */
    static method New(total: nat, width: nat, clock: Result<nat, SahneError>)
      returns (r: Result<ProgressBar, PaketYoneticisiHatasi>)
      ensures r.Err? <==> clock.Err?
      ensures r.Err? ==> r.error == SahneApiHatasi(clock.error)
      ensures r.Ok? ==> fresh(r.value) && r.value.Valid() && r.value.current == 0 && r.value.total == total
                        && r.value.width == width && r.value.startTimeUs == clock.value && r.value.message == []
                        && r.value.filledChar == '#' && r.value.emptyChar == ' '
                        && r.value.showPercentage && !r.value.showTime
    {
      match clock
      case Err(e) =>
        r := Err(SahneApiHatasi(e));
      case Ok(now) =>
        var bar := new ProgressBar(total, width, now, '#', ' ', true, false);
        r := Ok(bar);
    }

    /** `ProgressBar::with_config`: the caller's characters and switches; fails when the clock does. */
    static method WithConfig(total: nat, width: nat, filledChar: char, emptyChar: char,
                             showPercentage: bool, showTime: bool, clock: Result<nat, SahneError>)
      returns (r: Result<ProgressBar, PaketYoneticisiHatasi>)
      ensures r.Err? <==> clock.Err?
      ensures r.Err? ==> r.error == SahneApiHatasi(clock.error)
      ensures r.Ok? ==> fresh(r.value) && r.value.Valid() && r.value.current == 0 && r.value.total == total
                        && r.value.width == width && r.value.startTimeUs == clock.value && r.value.message == []
                        && r.value.filledChar == filledChar && r.value.emptyChar == emptyChar
                        && r.value.showPercentage == showPercentage && r.value.showTime == showTime
    {
      match clock
      case Err(e) =>
        r := Err(SahneApiHatasi(e));
      case Ok(now) =>
        var bar := new ProgressBar(total, width, now, filledChar, emptyChar, showPercentage, showTime);
        r := Ok(bar);
    }

    /**
     * `update`: advance by `increment`, stopping at the total, then redraw.
     * The count changes even when the redraw fails.
     */
    method Update(increment: nat, clock: Result<nat, SahneError>, write: Access)
      returns (r: Result<(), PaketYoneticisiHatasi>)
      requires Valid()
      modifies this
      ensures Valid() && old(current) <= current
      ensures current == Clamp(old(current) + increment, total)
      ensures total == old(total) && width == old(width) && startTimeUs == old(startTimeUs) && message == old(message)
      ensures filledChar == old(filledChar) && emptyChar == old(emptyChar)
      ensures showPercentage == old(showPercentage) && showTime == old(showTime)
      ensures r == Draw(clock, write)
    {
      UpdateAdvances(current, increment, total);
      current := current + increment;
      if current > total {
        current := total;
      }
      r := Draw(clock, write);
    }

    /** `set_current`: jump to `value`, stopping at the total, then redraw. */
    method SetCurrent(value: nat, clock: Result<nat, SahneError>, write: Access)
      returns (r: Result<(), PaketYoneticisiHatasi>)
      requires Valid()
      modifies this
      ensures Valid()
      ensures current == Clamp(value, total)
      ensures total == old(total) && width == old(width) && startTimeUs == old(startTimeUs) && message == old(message)
      ensures filledChar == old(filledChar) && emptyChar == old(emptyChar)
      ensures showPercentage == old(showPercentage) && showTime == old(showTime)
      ensures r == Draw(clock, write)
    {
      current := value;
      if current > total {
        current := total;
      }
      r := Draw(clock, write);
    }

    /** `set_message`: replaces the message and nothing else. */
    method SetMessage(message: string)
      requires Valid()
      modifies this
      ensures Valid() && this.message == message
      ensures total == old(total) && current == old(current) && width == old(width) && startTimeUs == old(startTimeUs)
      ensures filledChar == old(filledChar) && emptyChar == old(emptyChar)
      ensures showPercentage == old(showPercentage) && showTime == old(showTime)
    {
      this.message := message;
    }

    /** `finish`: writes a newline and changes nothing; a refused write is an error. */
    method Finish(write: Access) returns (r: Result<(), PaketYoneticisiHatasi>)
      ensures r.Ok? <==> write.Granted?
      ensures write.Denied? ==> r == Err(FromSahne(write.error))
    {
      match write
      case Denied(e) => r := Err(FromSahne(e));
      case Granted => r := Ok(());
    }
  }

  // ---------------------------------------------------------------- properties of the count

  /** Advancing from a valid count never goes back and never passes the total. */
  lemma UpdateAdvances(current: nat, increment: nat, total: nat)
    requires current <= total
    ensures current <= Clamp(current + increment, total) <= total
    ensures Clamp(current + increment, total) == current <==> increment == 0 || current == total
  {
  }

  /** Two updates in a row land where one update by their sum lands. */
  lemma UpdateTwice(current: nat, a: nat, b: nat, total: nat)
    requires current <= total
    ensures Clamp(Clamp(current + a, total) + b, total) == Clamp(current + a + b, total)
  {
  }

  /** Setting the count twice keeps only the second, and setting a valid count changes nothing. */
  lemma SetCurrentOverwrites(v: nat, w: nat, total: nat)
    ensures Clamp(Clamp(v, total), total) == Clamp(v, total)
    ensures v <= total ==> Clamp(v, total) == v
  {
  }
}
