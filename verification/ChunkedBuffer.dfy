/**
 * The chunked decoder on the connection's own buffer. The body is written over the wire bytes it came
 * from: the write position never passes the read position, so neither the head nor a byte that has
 * not been read yet is ever altered. `wire` is the input as it arrived, which the buffer no longer is.
 */
module ChunkedBuffer {
  import opened Chunked

  class Conn {
    const input: array<char>
    var inUsed: nat
    var headLen: nat
    var chState: Mode
    var chRead: nat
    var chRemaining: nat
    var bodyLen: nat
    ghost var wire: string
    ghost var body: string

    /** The cursors are in order; the head and the unread bytes are as they arrived; the body is between them. */
    ghost predicate Valid()
      reads this, input
    {
      && headLen + bodyLen <= chRead <= inUsed <= input.Length
      && |wire| == inUsed && |body| == bodyLen
      && (forall j | 0 <= j < headLen :: input[j] == wire[j])
      && (forall j | chRead <= j < inUsed :: input[j] == wire[j])
      && (forall j | headLen <= j < headLen + bodyLen :: input[j] == body[j - headLen])
    }

    ghost function Value(): Dec
      reads this
    {
      Dec(chState, chRead, chRemaining, body)
    }

    constructor (size: nat)
      ensures Valid() && inUsed == 0 && input.Length == size && fresh(input)
    {
      input := new char[size](_ => '\0');
      inUsed, headLen, chState, chRead, chRemaining, bodyLen := 0, 0, Size, 0, 0, 0;
      wire, body := "", "";
    }

    /** A head of `n` bytes was parsed and says that the body is chunked. */
    method StartBody(n: nat)
      requires Valid() && chRead == 0 && headLen == 0 && bodyLen == 0 && n <= inUsed
      modifies this
      ensures Valid() && wire == old(wire) && inUsed == old(inUsed) && headLen == n
      ensures Value() == Dec(Size, n, 0, "")
    {
      headLen := n;
      chState := Size;
      chRead := n;
      chRemaining := 0;
      bodyLen := 0;
      body := "";
    }

    /** A read put `data` behind what was there. */
    method Receive(data: string)
      requires Valid() && inUsed + |data| <= input.Length
      modifies this`inUsed, this`wire, input
      ensures Valid() && wire == old(wire) + data && inUsed == old(inUsed) + |data|
      ensures Value() == old(Value()) && headLen == old(headLen)
    {
      var k := 0;
      while k < |data|
        invariant k <= |data| && inUsed == old(inUsed) && wire == old(wire)
        invariant forall j | 0 <= j < inUsed :: input[j] == old(input[j])
        invariant forall j | inUsed <= j < inUsed + k :: input[j] == data[j - inUsed]
      {
        input[inUsed + k] := data[k];
        k := k + 1;
      }
      inUsed := inUsed + |data|;
      wire := wire + data;
    }

    /** The reads of one body, decoding after each while more is needed. */
    method ReceiveAndDecode(l: Limits, parts: seq<string>) returns (v: Verdict)
      requires Valid() && parts != [] && inUsed + |Join(parts)| <= input.Length
      modifies this`inUsed, this`wire, this`chState, this`chRead, this`chRemaining, this`bodyLen, this`body, input
      ensures Valid() && (v, Value()) == Feed(l, old(wire), old(Value()), parts)
    {
      hide Run;
      var i := 0;
      assert parts[0..] == parts;
      while true
        invariant 0 <= i < |parts| && Valid() && inUsed + |Join(parts[i..])| <= input.Length
        invariant Feed(l, old(wire), old(Value()), parts) == Feed(l, wire, Value(), parts[i..])
        decreases |parts| - i
      {
        assert parts[i..][0] == parts[i] && parts[i..][1..] == parts[i + 1..];
        Receive(parts[i]);
        v := Decode(l);
        i := i + 1;
        if !v.NeedMore? || i == |parts| {
          return;
        }
      }
    }

    /** memmove towards the front. */
    method MoveDown(to: nat, from: nat, n: nat)
      requires to <= from && from + n <= input.Length
      modifies input
      ensures forall j | to <= j < to + n :: input[j] == old(input[j - to + from])
      ensures forall j | 0 <= j < input.Length && !(to <= j < to + n) :: input[j] == old(input[j])
    {
      var k := 0;
      while k < n
        invariant k <= n
        invariant forall j | to <= j < to + k :: input[j] == old(input[j - to + from])
        invariant forall j | 0 <= j < input.Length && !(to <= j < to + k) :: input[j] == old(input[j])
      {
        input[to + k] := input[from + k];
        k := k + 1;
      }
    }

    /** memchr for a newline in the unread bytes. */
    method FindNewline() returns (nl: nat)
      requires Valid()
      ensures nl == Newline(wire, chRead)
    {
      nl := chRead;
      while nl < inUsed && input[nl] != '\n'
        invariant chRead <= nl <= inUsed && Newline(wire, nl) == Newline(wire, chRead)
      {
        nl := nl + 1;
      }
    }

    method ReadSize(max: nat, past: nat) returns (p: Parsed)
      requires Valid() && chRead < past <= inUsed
      ensures p == ParseSize(max, wire[chRead..past], 0, 0)
    {
      ghost var line := wire[chRead..past];
      var i, size := 0, 0;
      while i != past - chRead
        invariant 0 <= i <= |line| && size >= 0
        invariant ParseSize(max, line, 0, 0) == ParseSize(max, line, i, size)
      {
        var ch := input[chRead + i];
        assert ch == line[i];
        var d := HexDigit(ch);
        if d < 0 {
          break;
        }
        size := size * 16 + d;
        i := i + 1;
        if size > max {
          return Over;
        }
      }
      return Parsed(size, i);
    }

    /** Moves the next unread byte to the end of the body, in front of the unread ones. */
    method TakeByte()
      requires Valid() && chRead < inUsed
      modifies this`bodyLen, this`body, this`chRead, input
      ensures Valid()
      ensures Value() == old(Value()).(pos := old(chRead) + 1, body := old(body) + [wire[old(chRead)]])
    {
      input[headLen + bodyLen] := input[chRead];
      body := body + [wire[chRead]];
      bodyLen := bodyLen + 1;
      chRead := chRead + 1;
    }

    /** Copies what has arrived of a chunk, front to back, as the overlap allows. */
    method CopyData()
      requires Valid()
      modifies this`bodyLen, this`body, this`chRead, this`chRemaining, input
      ensures Valid()
      ensures Value() == DataStep(wire, old(Value())).d.(mode := chState)
    {
      var avail := inUsed - chRead;
      var n := if avail < chRemaining then avail else chRemaining;
      var from := chRead;
      ghost var was := body;
      while chRead < from + n
        invariant Valid() && from <= chRead <= from + n <= |wire|
        invariant chRemaining == old(chRemaining) && body == was + wire[from..chRead]
      {
        assert wire[from..chRead] + [wire[chRead]] == wire[from..chRead + 1];
        TakeByte();
      }
      chRemaining := chRemaining - n;
    }

    /** A turn at a size line; it goes on, or the decoder answers `v`. */
    method SizeTurn(l: Limits) returns (on: bool, v: Verdict)
      requires Valid() && chState.Size?
      modifies this`chState, this`chRead, this`chRemaining
      ensures Valid()
      ensures Step(l, wire, old(Value())) == if on then Goes(Value()) else Stops(v, Value())
    {
      hide Newline, ParseSize;
      var nl := FindNewline();
      if nl == inUsed {
        return false, if inUsed - chRead > l.line then Bad else NeedMore;
      }
      if nl - chRead + 1 > l.line {
        return false, Bad;
      }
      var p := ReadSize(l.body, nl + 1);
      if p.Over? {
        return false, TooLarge;
      }
      if p.digits == 0 {
        return false, Bad;
      }
      SkipTo(nl + 1);
      if p.size == 0 {
        chState := Trailer;
        return true, NeedMore;
      }
      if bodyLen + p.size > l.body {
        return false, TooLarge;
      }
      chRemaining := p.size;
      chState := Data;
      return true, NeedMore;
    }

    method CrlfTurn(l: Limits) returns (on: bool, v: Verdict)
      requires Valid() && chState.DataCrlf?
      modifies this`chState, this`chRead
      ensures Valid()
      ensures Step(l, wire, old(Value())) == if on then Goes(Value()) else Stops(v, Value())
    {
      if inUsed - chRead < 2 {
        return false, NeedMore;
      }
      if input[chRead] != '\r' || input[chRead + 1] != '\n' {
        return false, Bad;
      }
      SkipTo(chRead + 2);
      chState := Size;
      return true, NeedMore;
    }

    method TrailerTurn(l: Limits) returns (on: bool, v: Verdict)
      requires Valid() && chState.Trailer?
      modifies this`chState, this`chRead
      ensures Valid()
      ensures Step(l, wire, old(Value())) == if on then Goes(Value()) else Stops(v, Value())
    {
      hide Newline;
      var nl := FindNewline();
      if nl == inUsed {
        return false, if inUsed - chRead > l.trailer then Bad else NeedMore;
      }
      var lineLen := nl - chRead + 1;
      SkipTo(nl + 1);
      if lineLen <= 2 {
        chState := End;
        return false, Finished;
      }
      return true, NeedMore;
    }

    /** A turn at the data of a chunk. */
    method DataTurn(l: Limits) returns (on: bool, v: Verdict)
      requires Valid() && chState.Data?
      modifies this`chState, this`chRead, this`chRemaining, this`bodyLen, this`body, input
      ensures Valid()
      ensures Step(l, wire, old(Value())) == if on then Goes(Value()) else Stops(v, Value())
    {
      CopyData();
      hide Valid;
      if chRemaining != 0 {
        return false, NeedMore;
      }
      SetState(DataCrlf);
      return true, NeedMore;
    }

    method SetState(mode: Mode)
      requires Valid()
      modifies this`chState
      ensures Valid() && Value() == old(Value()).(mode := mode)
    {
      chState := mode;
    }

    /** One turn of the decoder's loop. */
    method OneTurn(l: Limits) returns (on: bool, v: Verdict)
      requires Valid()
      modifies this`chState, this`chRead, this`chRemaining, this`bodyLen, this`body, input
      ensures Valid()
      ensures Step(l, wire, old(Value())) == if on then Goes(Value()) else Stops(v, Value())
    {
      hide Valid, SizeStep, DataStep, CrlfStep, TrailerStep;
      match chState {
        case Size => on, v := SizeTurn(l);
        case Data => on, v := DataTurn(l);
        case DataCrlf => on, v := CrlfTurn(l);
        case Trailer => on, v := TrailerTurn(l);
        case End => on, v := false, Finished;
      }
    }

    lemma Within()
      requires Valid()
      ensures chRead <= |wire| == inUsed
    {
    }

    /** Decodes as much of the body as has arrived. */
    method Decode(l: Limits) returns (v: Verdict)
      requires Valid()
      modifies this`chState, this`chRead, this`chRemaining, this`bodyLen, this`body, input
      ensures Valid()
      ensures (v, Value()) == Run(l, wire, old(Value()))
    {
      hide Valid, Step;
      ghost var start := Value();
      var on := true;
      v := NeedMore;
      Within();
      while on
        invariant Valid() && chRead <= |wire|
        invariant Run(l, wire, start) == if on then Run(l, wire, Value()) else (v, Value())
        decreases on, |wire| - chRead, if chState.Data? then 1 else 0
      {
        StepAdvances(l, wire, Value());
        on, v := OneTurn(l);
        Within();
      }
    }

    method SkipTo(past: nat)
      requires Valid() && chRead <= past <= inUsed
      modifies this`chRead
      ensures Valid() && Value() == old(Value()).(pos := past)
    {
      chRead := past;
    }

    /** Drops `n` bytes, all of them read: what stands first then is the next request, as it arrived. */
    method Consume(n: nat)
      requires Valid() && chRead <= n <= inUsed
      modifies this, input
      ensures Valid() && inUsed == old(inUsed) - n
      ensures wire == old(wire)[n..] && input[..inUsed] == wire
      ensures headLen == 0 && Value() == Dec(Size, 0, 0, "")
    {
      MoveDown(0, n, inUsed - n);
      inUsed := inUsed - n;
      wire := wire[n..];
      headLen, chState, chRead, chRemaining, bodyLen, body := 0, Size, 0, 0, 0, "";
    }

    /**
     * One pipelined request with a chunked body that has arrived in full: the body read out of the
     * buffer is the one that was sent, and what is left first in the buffer is what followed it.
     */
    method ServeOne(l: Limits, head: nat, ghost cs: seq<Chunk>, ghost last: Chunk, ghost ts: seq<string>) returns (got: string)
      requires Valid() && chRead == 0 && headLen == 0 && bodyLen == 0 && head <= inUsed
      requires LegalBody(l, cs, last, ts) && At(wire, head, BodyText(cs, last, ts))
      modifies this, input
      ensures got == BodyOf(cs)
      ensures Valid() && head + |BodyText(cs, last, ts)| <= |old(wire)|
      ensures input[..inUsed] == wire == old(wire)[head + |BodyText(cs, last, ts)|..]
    {
      hide Run, LegalBody, BodyText, BodyOf;
      DecodesEveryChunking(l, wire, head, cs, last, ts);
      StartBody(head);
      var v := Decode(l);
      got := input[headLen..headLen + bodyLen];
      assert got == body;
      Consume(chRead);
    }
  }
}
