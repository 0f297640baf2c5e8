/** The resumable reply parser, proved against `RespMachine.Run`. */
module RedisParser {
  import opened Bytes
  import opened Decimal
  import opened Numbers
  import M = RespMachine
  type RedisValue = M.RedisValue

  datatype State =
    | Start
    | String
    | StringLF
    | ErrorString
    | ErrorLF
    | Integer
    | IntegerLF
    | BulkSize
    | BulkSizeLF
    | Bulk
    | BulkCR
    | BulkLF
    | ArraySize
    | ArraySizeLF

  datatype ParseResult = Completed | Incompleted | Error

  /** The unfinished arrays that a remaining-count stack and a value stack hold together. */
  ghost function ZipFrames(counts: seq<int>, values: seq<RedisValue>): (frames: seq<M.Frame>)
    requires |counts| <= |values|
    ensures |frames| == |counts|
  {
    if counts == [] then [] else [M.Frame(counts[0], values[0].ToArray())] + ZipFrames(counts[1..], values[1..])
  }

  /** The two stacks are sequences with the top at index 0.  While a parse is suspended the outermost
      unfinished array lies on top, so the stacks read from the outside inwards. */
  class RedisParser {
    var state: State
    var bulkSize: int
    var buf: seq<byte>
    var arrayStack: seq<int>
    var valueStack: seq<RedisValue>

    /** The part of the scanner fields that later input can observe. */
    ghost function Scanner(): M.Scanner
      reads this
    {
      match state
      case Start => M.Start
      case String => M.String(buf)
      case StringLF => M.StringLF(buf)
      case ErrorString => M.ErrorString(buf)
      case ErrorLF => M.ErrorLF(buf)
      case Integer => M.Integer(buf)
      case IntegerLF => M.IntegerLF(buf)
      case BulkSize => M.BulkSize(buf)
      case BulkSizeLF => M.BulkSizeLF(buf)
      case Bulk => M.Bulk(buf, bulkSize)
      case BulkCR => M.BulkCR(buf)
      case BulkLF => M.BulkLF(buf)
      case ArraySize => M.ArraySize(buf)
      case ArraySizeLF => M.ArraySizeLF(buf)
    }

    /** The stacks are aligned frame by frame, every suspended array still lacks an element, and so does
        a suspended bulk body. */
    ghost predicate Valid()
      reads this
    {
      && |arrayStack| <= |valueStack|
      && (forall k :: 0 <= k < |arrayStack| ==> arrayStack[k] > 0 && valueStack[k].Array?)
      && (state == Bulk ==> bulkSize > 0)
    }

    ghost function Frames(): seq<M.Frame>
      requires Valid()
      reads this
    {
      ZipFrames(arrayStack, valueStack)
    }

    ghost function Abs(): M.Config
      requires Valid()
      reads this
    {
      M.Config(Scanner(), Frames())
    }

    /** The values below the suspended frames; no parse ever touches them. */
    ghost function Base(): seq<RedisValue>
      requires Valid()
      reads this
    {
      valueStack[|arrayStack|..]
    }

    /** `n` and `r` report outcome `o`, and the fields hold what the outcome says they should. */
    ghost predicate Reports(o: M.Outcome, base: seq<RedisValue>, n: nat, r: ParseResult)
      reads this
    {
      && Valid()
      && match r
         case Completed => o.Done? && o.n == n && state == Start && arrayStack == [] && valueStack == [o.v] + base
         case Incompleted => o.More? && o.c == Abs() && Base() == base
         case Error => o == M.Bad(n) && state == Start && Base() == base
    }

    constructor ()
      ensures Valid() && Abs() == M.INITIAL && Base() == []
    {
      state := Start;
      bulkSize := 0;
      buf := [];
      arrayStack := [];
      valueStack := [];
    }

    method Parse(data: seq<byte>) returns (n: nat, r: ParseResult)
      requires Valid()
      modifies this
      ensures Reports(M.Run(old(Abs()), data), old(Base()), n, r)
      ensures n <= |data| && (r == Incompleted ==> n == |data|) && (r != Incompleted ==> n >= 1)
      ensures r == Error ==> M.Survives(Frames(), old(Scanner()), old(Frames()), data)
      decreases |data|, |arrayStack|, 2
    {
      if arrayStack != [] {
        n, r := ParseArray(data);
      } else {
        n, r := ParseChunk(data);
      }
    }

    method ParseArray(data: seq<byte>) returns (n: nat, r: ParseResult)
      requires Valid() && arrayStack != []
      modifies this
      ensures Reports(M.Run(old(Abs()), data), old(Base()), n, r)
      ensures n <= |data| && (r == Incompleted ==> n == |data|) && (r != Incompleted ==> n >= 1)
      ensures r == Error ==> M.Survives(Frames(), old(Scanner()), old(Frames()), data)
      decreases |data|, |arrayStack|, 0
    {
      hide M.Run, M.Resume, M.Survives, ZipFrames;
      ghost var sc, frames := Scanner(), Frames();
      var arraySize, arrayValue := Pop();

      if arrayStack == [] {
        M.ResumeAlone(sc, arraySize, arrayValue, data);
        assert frames == [M.Frame(arraySize, arrayValue)] == [M.Frame(arraySize, arrayValue)] + [];
        n, r := ParseElements(data, arraySize, arrayValue);
        M.NothingSurvives(M.Frame(arraySize, arrayValue), sc, [], data);
      } else {
        ghost var f, inner := M.Frame(arraySize, arrayValue), Frames();
        M.RunInside(f, sc, inner, data);
        n, r := ParseArray(data);
        if r != Completed {
          if r == Error {
            M.SurvivesAround(f, Frames(), sc, inner, data);
          }
          Push(arraySize, arrayValue);
        } else {
          var element := TakeValue();
          arrayValue := arrayValue + [element];
          var m, q := ParseElements(data[n..], arraySize - 1, arrayValue);
          n, r := n + m, q;
          M.NothingSurvives(f, sc, inner, data);
        }
      }
    }

    /** Take a finished value off the stack. */
    method TakeValue() returns (v: RedisValue)
      requires Valid() && arrayStack == [] && valueStack != []
      modifies this`valueStack
      ensures Valid() && v == old(valueStack[0]) && valueStack == old(valueStack[1..])
    {
      v := valueStack[0];
      valueStack := valueStack[1..];
    }

    /** Take the outermost suspended array off both stacks. */
    method Pop() returns (arraySize: int, arrayValue: seq<RedisValue>)
      requires Valid() && arrayStack != []
      modifies this`arrayStack, this`valueStack
      ensures Valid() && arraySize > 0 && Base() == old(Base()) && |Frames()| == |arrayStack|
      ensures old(Frames()) == [M.Frame(arraySize, arrayValue)] + Frames()
    {
      arraySize := arrayStack[0];
      arrayValue := valueStack[0].ToArray();
      arrayStack := arrayStack[1..];
      valueStack := valueStack[1..];
    }

    /** The second half of `parseArray`: build the missing elements of an array from what is left of the
        segment, suspending it again when the segment ends first. */
    method ParseElements(data: seq<byte>, arraySize: int, value: seq<RedisValue>) returns (n: nat, r: ParseResult)
      requires Valid() && arrayStack == [] && arraySize >= 0
      requires arraySize == 0 ==> state == Start
      modifies this
      ensures Reports(M.Resume(old(Scanner()), arraySize, value, data), old(valueStack), n, r)
      ensures n <= |data| && (r == Incompleted ==> n == |data|) && (r != Incompleted && arraySize > 0 ==> n >= 1)
      ensures r == Error ==> arrayStack == []
      decreases |data|, 0, 4
    {
      hide M.Run, M.Step, M.Scan, M.Deliver, M.Enclose, ZipFrames;
      if data == [] {
        if arraySize == 0 {
          valueStack := [M.Array(value)] + valueStack;
          return 0, Completed;
        }
        M.RunNothing(M.Config(Scanner(), [M.Frame(arraySize, value)]), data);
        Push(arraySize, value);
        assert Frames() == [M.Frame(arraySize, value)];
        return 0, Incompleted;
      }
      ghost var base := valueStack;
      ghost var whole := M.Resume(Scanner(), arraySize, value, data);
      var arrayValue := value;
      var i: nat := 0;
      assert data[0..] == data;
      var x := 0;
      while x < arraySize
        invariant 0 <= x <= arraySize && i <= |data|
        invariant Valid() && arrayStack == [] && valueStack == base
        invariant x == arraySize ==> state == Start
        invariant x > 0 ==> i >= 1
        invariant whole == M.Resume(Scanner(), arraySize - x, arrayValue, data[i..]).Shift(i)
        decreases arraySize - x
      {
        var m, q := ParseElement(data[i..], arraySize - x, arrayValue);
        if q != Completed {
          return i + m, q;
        }
        assert data[i..][m..] == data[i + m..];
        i := i + m;
        var element := TakeValue();
        arrayValue := arrayValue + [element];
        x := x + 1;
      }
      valueStack := [M.Array(arrayValue)] + valueStack;
      return i, Completed;
    }

    /** Parse one element; if it stays unfinished, suspend the array around it. */
    method ParseElement(data: seq<byte>, left: int, arrayValue: seq<RedisValue>) returns (n: nat, r: ParseResult)
      requires Valid() && arrayStack == [] && left > 0
      modifies this
      ensures n <= |data| && (r == Incompleted ==> n == |data|) && (r != Incompleted ==> n >= 1)
      ensures r != Completed ==> Reports(M.Resume(old(Scanner()), left, arrayValue, data), old(valueStack), n, r)
      ensures r == Completed ==>
                && Valid() && state == Start && arrayStack == []
                && |valueStack| == |old(valueStack)| + 1 && valueStack[1..] == old(valueStack)
                && M.Resume(old(Scanner()), left, arrayValue, data)
                   == M.Resume(M.Start, left - 1, arrayValue + [valueStack[0]], data[n..]).Shift(n)
      ensures r == Error ==> arrayStack == []
      decreases |data|, 0, 3
    {
      hide M.Run, M.Step, M.Scan, M.Deliver;
      M.ResumeElement(Scanner(), left, arrayValue, data);
      n, r := Parse(data);
      if r == Incompleted {
        Push(left, arrayValue);
      }
    }

    /** Suspend an unfinished array on top of both stacks. */
    method Push(arraySize: int, arrayValue: seq<RedisValue>)
      requires Valid() && arraySize > 0
      modifies this`arrayStack, this`valueStack
      ensures Valid() && Base() == old(Base())
      ensures Frames() == [M.Frame(arraySize, arrayValue)] + old(Frames())
    {
      arrayStack := [arraySize] + arrayStack;
      valueStack := [M.Array(arrayValue)] + valueStack;
    }

    method ParseChunk(data: seq<byte>) returns (n: nat, r: ParseResult)
      requires Valid() && arrayStack == []
      modifies this
      ensures Reports(M.Run(old(Abs()), data), old(Base()), n, r)
      ensures n <= |data| && (r == Incompleted ==> n == |data|) && (r != Incompleted ==> n >= 1)
      ensures r == Error ==> arrayStack == []
      decreases |data|, 0, 1
    {
      hide M.Run, M.Step, M.Scan, M.Deliver, StrToL, ZipFrames;
      ghost var whole := M.Run(Abs(), data);
      ghost var base := Base();
      assert data[0..] == data;
      var i: nat := 0;
      while i < |data|
        invariant i <= |data|
        invariant Valid() && arrayStack == [] && valueStack == base
        invariant state == Bulk ==> i == 0
        invariant whole == M.Run(M.Config(Scanner(), []), data[i..]).Shift(i)
        decreases |data| - i
      {
        var c := data[i];
        if state == BulkSizeLF && c == LF && StrToL(buf) > 0 {
          i := StartBulk(data, i);
          if state == Bulk {
            M.RunNothing(Abs(), data[i..]);
            return i, Incompleted;
          }
        } else if state == Bulk {
          i := CopyBulk(data, i);
          if state == Bulk || |data| == i {
            M.RunNothing(Abs(), data[i..]);
            return i, Incompleted;
          }
        } else if state == ArraySizeLF && c == LF && StrToL(buf) > 0 {
          n, r := StartArray(data[i..]);
          return i + n, r;
        } else {
          var done, q := ParseByte(data, i);
          if done {
            return i + 1, q;
          }
          i := i + 1;
        }
      }
      M.RunNothing(Abs(), data[i..]);
      return i, Incompleted;
    }

    /** One byte that neither copies a block nor opens an array. */
    method ParseByte(data: seq<byte>, i: nat) returns (done: bool, r: ParseResult)
      requires Valid() && arrayStack == [] && i < |data| && state != Bulk
      requires state in {BulkSizeLF, ArraySizeLF} ==> !(data[i] == LF && StrToL(buf) > 0)
      modifies this`state, this`bulkSize, this`buf, this`valueStack
      ensures Valid() && state != Bulk
      ensures done ==>
                r != Incompleted && Reports(M.Run(M.Config(old(Scanner()), []), data[i..]), old(valueStack), 1, r)
      ensures !done ==>
                && valueStack == old(valueStack)
                && M.Run(M.Config(old(Scanner()), []), data[i..])
                   == M.Run(M.Config(Scanner(), []), data[i + 1..]).Shift(1)
    {
      hide M.Run, M.Scan, StrToL;
      M.RunScan(Scanner(), data[i..]);
      assert data[i..][1..] == data[i + 1..];
      done, r := ScanByte(data[i]);
    }

    /** The line feed after a positive array size: suspend an empty array, and go straight on with its
        elements unless the segment ends here. */
    method StartArray(data: seq<byte>) returns (n: nat, r: ParseResult)
      requires Valid() && arrayStack == [] && state == ArraySizeLF
      requires data != [] && data[0] == LF && StrToL(buf) > 0
      modifies this
      ensures Reports(M.Run(old(Abs()), data), old(Base()), n, r)
      ensures n <= |data| && (r == Incompleted ==> n == |data|) && (r != Incompleted ==> n >= 1)
      ensures r == Error ==> arrayStack == []
      decreases |data|, 0, 0
    {
      hide M.Run;
      M.RunScan(Scanner(), data);
      var arraySize := StrToL(buf);
      buf := [];
      Push(arraySize, []);
      state := Start;
      assert Abs() == M.Config(M.Start, [M.Frame(arraySize, [])]);
      if 1 != |data| {
        assert !M.InsideFails(M.Start, Frames(), 0, data[1..]);
        n, r := ParseArray(data[1..]);
        n := n + 1;
      } else {
        M.RunNothing(Abs(), data[1..]);
        n, r := 1, Incompleted;
      }
    }

    /** The line feed after a positive bulk size: copy what the segment already holds of the body in one
        go.  To the byte machine this is the same as reading the line feed and then byte after byte. */
    method StartBulk(data: seq<byte>, i: nat) returns (j: nat)
      requires Valid() && arrayStack == [] && state == BulkSizeLF
      requires i < |data| && data[i] == LF && StrToL(buf) > 0
      modifies this`state, this`bulkSize, this`buf
      ensures Valid() && state in {Bulk, BulkCR} && i < j <= |data| && (state == Bulk ==> j == |data|)
      ensures M.Run(M.Config(old(Scanner()), []), data[i..]) == M.Run(M.Config(Scanner(), []), data[j..]).Shift(j - i)
    {
      hide M.Run;
      ghost var rest := data[i..][1..];
      M.RunScan(Scanner(), data[i..]);
      bulkSize := StrToL(buf);
      buf := [];
      ghost var total := bulkSize;
      M.RunBulk([], total, [], rest);

      var available := |data| - i - 1;
      var canRead := Min(bulkSize, available);
      if canRead > 0 {
        buf := data[i + 1..i + canRead + 1];
      }
      assert buf == [] + rest[..canRead];
      j := i + canRead + 1;
      if bulkSize > available {
        bulkSize := bulkSize - canRead;
        state := Bulk;
        assert rest[..canRead] == rest && data[j..] == [];
        M.RunNothing(M.Config(Scanner(), []), data[j..]);
      } else {
        state := BulkCR;
        assert rest[total..] == data[j..];
      }
    }

    /** A body continued at the start of a segment: append what the segment holds of it in one go.  The copy
        ends at `data + canRead`, which is right only because the position is 0 here. */
    method CopyBulk(data: seq<byte>, i: nat) returns (j: nat)
      requires Valid() && arrayStack == [] && state == Bulk
      requires i == 0 < |data|
      modifies this`state, this`bulkSize, this`buf
      ensures Valid() && state in {Bulk, BulkCR} && i < j <= |data| && (state == Bulk ==> j == |data|)
      ensures M.Run(M.Config(old(Scanner()), []), data[i..]) == M.Run(M.Config(Scanner(), []), data[j..]).Shift(j - i)
    {
      hide M.Run;
      ghost var had, total := buf, bulkSize;
      M.RunBulk(had, total, [], data);
      assert data[i..] == data;

      var available := |data| - i;
      var canRead := Min(available, bulkSize);
      buf := buf + data[i..canRead];
      bulkSize := bulkSize - canRead;
      j := i + canRead;
      if bulkSize > 0 {
        assert data[..canRead] == data && data[j..] == [];
        M.RunNothing(M.Config(Scanner(), []), data[j..]);
      } else {
        state := BulkCR;
        assert data[i..canRead] == data[..total];
      }
    }

    /** One turn of the `switch` for every state that consumes a single byte. */
    method ScanByte(c: byte) returns (done: bool, r: ParseResult)
      requires Valid() && state != Bulk
      requires state in {BulkSizeLF, ArraySizeLF} ==> !(c == LF && StrToL(buf) > 0)
      modifies this`state, this`bulkSize, this`buf, this`valueStack
      ensures state != Bulk
      ensures match M.Scan(old(Scanner()), c)
              case Next(sc) => !done && Scanner() == sc && valueStack == old(valueStack)
              case Value(v) => done && r == Completed && state == Start && valueStack == [v] + old(valueStack)
              case Reject => done && r == Error && state == Start && valueStack == old(valueStack)
              case Header(_) => false
    {
      hide StrToL, IsChar, IsControl, M.ScanStart;
      done, r := false, Incompleted;
      match state {
        case Start => done, r := ScanMarker(c);
        case String => done, r := ScanLine(c, IsChar(c) && !IsControl(c), true, StringLF);
        case ErrorString => done, r := ScanLine(c, IsChar(c) && !IsControl(c), true, ErrorLF);
        case BulkSize => done, r := ScanLine(c, IsDigit(c) || c == MINUS, false, BulkSizeLF);
        case ArraySize => done, r := ScanLine(c, IsDigit(c) || c == MINUS, false, ArraySizeLF);
        case Integer => done, r := ScanLine(c, IsDigit(c) || c == MINUS, false, IntegerLF);
        case StringLF => done, r := Finish(c == LF, M.Bytes(buf, false));
        case ErrorLF => done, r := Finish(c == LF, M.Bytes(buf, true));
        case BulkLF => done, r := Finish(c == LF, M.Bytes(buf, false));
        case IntegerLF =>
          if c == LF {
            var value := StrToL(buf);
            buf := [];
            done, r := Finish(true, M.Int(value));
          } else {
            done, r := Finish(false, M.Null);
          }
        case BulkSizeLF => done, r := ScanBulkSizeLF(c);
        case BulkCR =>
          if c == CR {
            state := BulkLF;
          } else {
            done, r := Finish(false, M.Null);
          }
        case ArraySizeLF => done, r := ScanArraySizeLF(c);
        case Bulk => assert false;
      }
    }

    /** The first byte of a reply says what kind it is. */
    method ScanMarker(c: byte) returns (done: bool, r: ParseResult)
      requires state == Start
      modifies this`state, this`bulkSize, this`buf
      ensures state != Bulk && buf == []
      ensures match M.ScanStart(c)
              case Next(sc) => !done && Scanner() == sc
              case Reject => done && r == Error && state == Start
              case _ => false
    {
      done, r := false, Incompleted;
      buf := [];
      match c {
        case 43 => state := String;
        case 45 => state := ErrorString;
        case 58 => state := Integer;
        case 36 => state := BulkSize; bulkSize := 0;
        case 42 => state := ArraySize;
        case _ => done, r := true, Error;
      }
    }

    /** The end of a bulk header that announces no body: null, an empty body, or an error. */
    method ScanBulkSizeLF(c: byte) returns (done: bool, r: ParseResult)
      requires !(c == LF && StrToL(buf) > 0)
      modifies this`state, this`bulkSize, this`buf, this`valueStack
      ensures if c == LF && StrToL(old(buf)) == -1 then
                done && r == Completed && state == Start && valueStack == [M.Null] + old(valueStack)
              else if c == LF && StrToL(old(buf)) == 0 then
                !done && state == BulkCR && buf == [] && valueStack == old(valueStack)
              else done && r == Error && state == Start && valueStack == old(valueStack)
    {
      hide StrToL;
      done, r := false, Incompleted;
      if c == LF {
        bulkSize := StrToL(buf);
        buf := [];
        if bulkSize == 0 {
          state := BulkCR;
        } else {
          done, r := Finish(bulkSize == -1, M.Null);
        }
      } else {
        done, r := Finish(false, M.Null);
      }
    }

    /** The end of an array header that announces no element: an empty array or an error. */
    method ScanArraySizeLF(c: byte) returns (done: bool, r: ParseResult)
      requires !(c == LF && StrToL(buf) > 0)
      modifies this`state, this`buf, this`valueStack
      ensures done && state == Start
      ensures if c == LF && -1 <= StrToL(old(buf)) <= 0
              then r == Completed && valueStack == [M.Array([])] + old(valueStack)
              else r == Error && valueStack == old(valueStack)
    {
      hide StrToL;
      if c == LF {
        var arraySize := StrToL(buf);
        buf := [];
        done, r := Finish(arraySize == -1 || arraySize == 0, M.Array([]));
      } else {
        done, r := Finish(false, M.Null);
      }
    }

    /** A line state: collect `c`, or leave at the carriage return, or reject. */
    method ScanLine(c: byte, ok: bool, mayBeEmpty: bool, next: State) returns (done: bool, r: ParseResult)
      modifies this`state, this`buf
      ensures if c == CR && (mayBeEmpty || old(buf) != []) then !done && state == next && buf == old(buf)
              else if c != CR && ok then !done && state == old(state) && buf == old(buf) + [c]
              else done && r == Error && state == Start
    {
      done, r := false, Incompleted;
      if c == CR {
        if buf == [] && !mayBeEmpty {
          state := Start;
          done, r := true, Error;
        } else {
          state := next;
        }
      } else if ok {
        buf := buf + [c];
      } else {
        state := Start;
        done, r := true, Error;
      }
    }

    /** Return to the start state with a finished value or an error. */
    method Finish(ok: bool, v: RedisValue) returns (done: bool, r: ParseResult)
      modifies this`state, this`valueStack
      ensures done && state == Start
      ensures ok ==> r == Completed && valueStack == [v] + old(valueStack)
      ensures !ok ==> r == Error && valueStack == old(valueStack)
    {
      done, state := true, Start;
      if ok {
        valueStack := [v] + valueStack;
        r := Completed;
      } else {
        r := Error;
      }
    }

    /** `result()`: take the finished value; with nothing on the stack it is null. */
    method Result() returns (v: RedisValue)
      requires Valid() && arrayStack == []
      modifies this`valueStack
      ensures Valid() && Scanner() == old(Scanner())
      ensures old(valueStack) != [] ==> [v] + valueStack == old(valueStack)
      ensures old(valueStack) == [] ==> v == M.Null && valueStack == []
    {
      if valueStack != [] {
        v := valueStack[0];
        valueStack := valueStack[1..];
      } else {
        v := M.Null;
      }
    }
  }
}
