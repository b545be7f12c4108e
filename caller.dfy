/** QCubed\Exception\Caller: an exception that reports the file and line of
    the code that called the failing method, found by an offset into the
    backtrace captured when it was created. */
module CallerException {
  import opened Php

  /** A backtrace frame: where the call happened, or no location for a call
      made from inside the engine. Only the 'file' and 'line' keys are kept. */
  datatype Frame = Internal | At(file: string, line: int)

  function FrameValue(f: Frame): Value
  {
    match f
    case Internal => Arr([])
    case At(file, line) => Arr([(StrKey("file"), Str(file)), (StrKey("line"), Int(line))])
  }

  function TraceValue(trace: seq<Frame>): (r: Value)
    ensures r.Arr? && |r.entries| == |trace|
    ensures forall i | 0 <= i < |trace| :: r.entries[i] == (IntKey(i), FrameValue(trace[i]))
  {
    Arr(seq(|trace|, i requires 0 <= i < |trace| => (IntKey(i), FrameValue(trace[i]))))
  }

  /** The error array_key_exists() raises when the offset is past either end
      of the trace and the lookup yields null. */
  const NoFrame: Exc := Exc(TypeError, "array_key_exists(): Argument #2 ($array) must be of type array, null given")

  /** The error the typed Exception::$line raises when '' is assigned to it. */
  const LineTypeError: Exc := Exc(TypeError, "Cannot assign string to property Exception::$line of type int")

  class Caller {
    var message: string
    var offset: int
    /** The backtrace, captured once by the constructor. */
    const trace: seq<Frame>
    var file: string
    var line: int

    /** file and line are those of the frame at the offset, whenever there is
        such a frame and it has a location. */
    predicate Located()
      reads this
    {
      0 <= offset < |trace| && trace[offset].At? ==> file == trace[offset].file && line == trace[offset].line
    }

    /** new Caller(message, offset): `trace` is what debug_backtrace() returns
        and originFile/originLine the place of the `new`, which the exception
        reports when the frame at the offset is missing or has no file. */
    constructor(message: string, offset: int, trace: seq<Frame>, originFile: string, originLine: int)
      ensures this.message == message && this.offset == offset && this.trace == trace
      ensures 0 <= offset < |trace| && trace[offset].At? ==> file == trace[offset].file && line == trace[offset].line
      ensures !(0 <= offset < |trace| && trace[offset].At?) ==> file == originFile && line == originLine
      ensures Located()
    {
      this.message := message;
      this.offset := offset;
      this.trace := trace;
      if 0 <= offset < |trace| && trace[offset].At? {
        file := trace[offset].file;
        line := trace[offset].line;
      } else {
        file := originFile;
        line := originLine;
      }
    }

    /** setMessage(): replaces the message and nothing else. */
    method SetMessage(m: string)
      modifies this
      ensures message == m
      ensures offset == old(offset) && file == old(file) && line == old(line)
    {
      message := m;
    }

    /** Moves to frame offset + delta. A frame with a location gives the file
        and line; one without gives file '' and line 0. */
    method MoveTo(delta: int) returns (r: Outcome<()>)
      modifies this
      ensures message == old(message) && offset == old(offset) + delta
      ensures r.Ok? <==> 0 <= offset < |trace|
      ensures r.Ok? && trace[offset].At? ==> file == trace[offset].file && line == trace[offset].line
      ensures r.Ok? && trace[offset].Internal? ==> file == "" && line == 0
      ensures r.Raise? ==> r.exc == NoFrame && file == old(file) && line == old(line)
      ensures r.Ok? ==> Located()
    {
      offset := offset + delta;
      if !(0 <= offset < |trace|) {
        return Raise(NoFrame);
      }
      match trace[offset] {
        case At(f, l) =>
          file, line := f, l;
        case Internal =>
          file, line := "", 0;
      }
      r := Ok(());
    }

    /** incrementOffset(): blames one caller further up. */
    method IncrementOffset() returns (r: Outcome<()>)
      modifies this
      ensures message == old(message) && offset == old(offset) + 1
      ensures r.Ok? <==> 0 <= offset < |trace|
      ensures r.Ok? && trace[offset].At? ==> file == trace[offset].file && line == trace[offset].line
      ensures r.Ok? && trace[offset].Internal? ==> file == "" && line == 0
      ensures r.Raise? ==> r.exc == NoFrame && file == old(file) && line == old(line)
      ensures r.Ok? ==> Located()
    {
      r := MoveTo(1);
    }

    /** decrementOffset(): undoes an increment. */
    method DecrementOffset() returns (r: Outcome<()>)
      modifies this
      ensures message == old(message) && offset == old(offset) - 1
      ensures r.Ok? <==> 0 <= offset < |trace|
      ensures r.Ok? && trace[offset].At? ==> file == trace[offset].file && line == trace[offset].line
      ensures r.Ok? && trace[offset].Internal? ==> file == "" && line == 0
      ensures r.Raise? ==> r.exc == NoFrame && file == old(file) && line == old(line)
      ensures r.Ok? ==> Located()
    {
      r := MoveTo(-1);
    }

    /** incrementOffset() as written: at a frame without a location it assigns
        '' to the line, which the int-typed Exception::$line refuses, after
        the offset and the file have already changed. */
    method IncrementOffsetAsWritten() returns (r: Outcome<()>)
      modifies this
      ensures message == old(message) && offset == old(offset) + 1
      ensures !(0 <= offset < |trace|) ==> r == Raise(NoFrame) && file == old(file) && line == old(line)
      ensures 0 <= offset < |trace| && trace[offset].At? ==>
        r == Ok(()) && file == trace[offset].file && line == trace[offset].line
      ensures 0 <= offset < |trace| && trace[offset].Internal? ==>
        r == Raise(LineTypeError) && file == "" && line == old(line)
    {
      offset := offset + 1;
      if !(0 <= offset < |trace|) {
        return Raise(NoFrame);
      }
      match trace[offset] {
        case At(f, l) =>
          file, line := f, l;
          r := Ok(());
        case Internal =>
          file := "";
          r := Raise(LineTypeError);
      }
    }

    /** __get(): Offset, the trace, and 0 for ErrorNumber; BackTrace is the
        export of the backtrace at the time of the call, given here as
        `currentBacktrace`. */
    method Get(name: string, currentBacktrace: string) returns (r: Outcome<Value>)
      ensures name == "Offset" ==> r == Ok(Int(offset))
      ensures name == "BackTrace" ==> r == Ok(Str(currentBacktrace))
      ensures name == "TraceArray" ==> r == Ok(TraceValue(trace))
      ensures name == "ErrorNumber" ==> r == Ok(Int(0))
      ensures name !in {"Offset", "BackTrace", "TraceArray", "ErrorNumber"} ==>
        r == Raise(Exc(PlainException, "Unknown property " + name))
    {
      if name == "Offset" {
        r := Ok(Int(offset));
      } else if name == "BackTrace" {
        r := Ok(Str(currentBacktrace));
      } else if name == "TraceArray" {
        r := Ok(TraceValue(trace));
      } else if name == "ErrorNumber" {
        r := Ok(Int(0));
      } else {
        r := Raise(Exc(PlainException, "Unknown property " + name));
      }
    }
  }

  /** An increment followed by a decrement restores the offset; when both
      find a frame the exception is located at its original frame again. */
  method IncrementThenDecrement(c: Caller) returns (up: Outcome<()>, down: Outcome<()>)
    requires c.Located()
    modifies c
    ensures c.offset == old(c.offset) && c.message == old(c.message)
    ensures up.Ok? && down.Ok? ==> c.Located()
    ensures up.Ok? && down.Ok? && 0 <= c.offset < |c.trace| && c.trace[c.offset].At? ==> c.file == old(c.file) && c.line == old(c.line)
  {
    up := c.IncrementOffset();
    down := c.DecrementOffset();
  }

  /** The case that shows the difference: a trace whose frame above the
      thrower has no location. */
  method AsWrittenInternalFrame() returns (asWritten: Outcome<()>, corrected: Outcome<()>, c2file: string, c2line: int)
    ensures asWritten == Raise(LineTypeError)
    ensures corrected.Ok? && c2file == "" && c2line == 0
  {
    var trace := [At("a.php", 10), At("b.php", 20), Internal];
    var c1 := new Caller("m", 1, trace, "a.php", 10);
    asWritten := c1.IncrementOffsetAsWritten();
    var c2 := new Caller("m", 1, trace, "a.php", 10);
    corrected := c2.IncrementOffset();
    c2file, c2line := c2.file, c2.line;
  }
}
