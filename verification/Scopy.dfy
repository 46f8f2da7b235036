/** The copying program: bytes 's' and 'S' are kept, every other run of bytes is replaced by
    its length, whatever pieces the system reads and writes. */
module Scopy {
  import opened Prelude

  const READ_BUFFER_SIZE: nat := 4096
  const WRITE_BUFFER_SIZE: nat := 6160

  predicate Kept(c: Byte) {
    c == 's' as int || c == 'S' as int
  }

  /** A 16-bit number, low byte first. */
  function Number(n: nat): (r: seq<Byte>)
    ensures |r| == 2
  {
    [n % 256, n / 256 % 256]
  }

  // ----- the encoding of a file

  /** How many bytes at the front are not kept. */
  function RunLength(s: seq<Byte>): (n: nat)
    ensures n <= |s| && (forall i :: 0 <= i < n ==> !Kept(s[i])) && (n < |s| ==> Kept(s[n]))
  {
    if s == [] || Kept(s[0]) then 0 else 1 + RunLength(s[1..])
  }

  /** Kept bytes stand for themselves, every maximal run of others for its length. */
  function Encoded(s: seq<Byte>): seq<Byte>
    decreases |s|
  {
    if s == [] then []
    else if Kept(s[0]) then [s[0]] + Encoded(s[1..])
    else Number(RunLength(s) % 65536) + Encoded(s[RunLength(s)..])
  }

  // ----- the encoding byte by byte

  function Flushed(run: nat): seq<Byte> {
    if run == 0 then [] else Number(run % 65536)
  }

  /** What is still to be written when a run of the given length is open. */
  function EncodedFrom(run: nat, rest: seq<Byte>): seq<Byte>
    decreases |rest|
  {
    if rest == [] then Flushed(run)
    else if Kept(rest[0]) then Flushed(run) + [rest[0]] + EncodedFrom(0, rest[1..])
    else EncodedFrom(run + 1, rest[1..])
  }

  lemma RunStep(rest: seq<Byte>)
    requires rest != []
    ensures RunLength(rest) == if Kept(rest[0]) then 0 else 1 + RunLength(rest[1..])
  {
  }

  lemma EncodedKept(rest: seq<Byte>)
    requires rest != [] && Kept(rest[0])
    ensures Encoded(rest) == [rest[0]] + Encoded(rest[1..])
  {
  }

  lemma FromStep(run: nat, rest: seq<Byte>)
    requires rest != []
    ensures EncodedFrom(run, rest) == if Kept(rest[0]) then Flushed(run) + [rest[0]] + EncodedFrom(0, rest[1..])
                                      else EncodedFrom(run + 1, rest[1..])
  {
  }

  /** The byte-by-byte form adds the open run to the one at the front of the rest. */
  lemma {:induction false} FromMeans(run: nat, rest: seq<Byte>)
    ensures EncodedFrom(run, rest) == Flushed(run + RunLength(rest)) + Encoded(rest[RunLength(rest)..])
    decreases |rest|
  {
    hide RunLength, Encoded, Flushed, Kept, EncodedFrom;
    if rest == [] {
      FromNothing(run);
    } else {
      RunStep(rest);
      FromStep(run, rest);
      var tail := rest[1..];
      if Kept(rest[0]) {
        FromMeans(0, tail);
        WholeFrom(tail);
        EncodedKept(rest);
        assert rest[0..] == rest;
        assert Flushed(run) + [rest[0]] + Encoded(tail) == Flushed(run) + ([rest[0]] + Encoded(tail));
      } else {
        FromMeans(run + 1, tail);
        assert tail[RunLength(tail)..] == rest[1 + RunLength(tail)..];
      }
    }
  }

  lemma FromNothing(run: nat)
    ensures EncodedFrom(run, []) == Flushed(run + RunLength([])) + Encoded([][RunLength([])..])
  {
    var none: seq<Byte> := [];
    assert none[0..] == [];
    assert Flushed(run) + [] == Flushed(run);
  }

  lemma WholeFrom(s: seq<Byte>)
    requires EncodedFrom(0, s) == Flushed(RunLength(s)) + Encoded(s[RunLength(s)..])
    ensures EncodedFrom(0, s) == Encoded(s)
  {
    if s == [] || Kept(s[0]) { assert [] + Encoded(s) == Encoded(s); }
  }

  lemma FromStart(s: seq<Byte>)
    ensures EncodedFrom(0, s) == Encoded(s)
  {
    FromMeans(0, s);
    WholeFrom(s);
  }

  // ----- the 64-bit batch

  /** The number that eight or fewer bytes make, the first one lowest. */
  function Batch(bytes: seq<Byte>): nat {
    if bytes == [] then 0 else bytes[0] + 256 * Batch(bytes[1..])
  }

  /** A number is written so that the processor loads it back, low byte first. */
  lemma NumberLoaded(n: nat)
    ensures Batch(Number(n)) == n % 65536
  {
    var high := n / 256 % 256;
    assert Number(n)[1..] == [high] && [high][1..] == [];
    assert Batch([high]) == high;
    assert n % 65536 == n % 256 + 256 * (n / 256 % 256);
  }

  lemma BatchStep(bytes: seq<Byte>)
    requires bytes != []
    ensures Batch(bytes) % 256 == bytes[0] && Batch(bytes) / 256 == Batch(bytes[1..])
  {
  }

  /** Where the batch of a byte ends in the read buffer. */
  function BatchEnd(r15: nat): (r: nat)
    requires r15 < READ_BUFFER_SIZE
    ensures r15 < r <= READ_BUFFER_SIZE && (r15 % 8 == 0 ==> r == r15 + 8)
  {
    r15 - r15 % 8 + 8
  }

  /** The low byte of the batch is the current one, and shifting exposes the next. */
  lemma BatchIn(buffer: seq<Byte>, r15: nat, r8: nat)
    requires r15 < READ_BUFFER_SIZE == |buffer| && r8 == Batch(buffer[r15..BatchEnd(r15)])
    ensures r8 % 256 == buffer[r15]
    ensures r15 + 1 < READ_BUFFER_SIZE && (r15 + 1) % 8 != 0 ==>
      r8 / 256 == Batch(buffer[r15 + 1..BatchEnd(r15 + 1)])
  {
    var batch := buffer[r15..BatchEnd(r15)];
    BatchStep(batch);
    assert batch[1..] == buffer[r15 + 1..BatchEnd(r15)];
  }

  /** The low 16 bits of the counter are those of the length of the run. */
  ghost predicate Counts(r13: nat, run: nat) {
    r13 % 65536 == run % 65536
  }

  lemma CountZero()
    ensures Counts(0, 0)
  {
  }

  lemma CountNext(r13: nat, run: nat)
    requires Counts(r13, run)
    ensures Counts((r13 + 1) % 0x1_0000_0000_0000_0000, run + 1)
  {
  }

  // ----- progress

  /** Output, buffer and what is still to be encoded make up the encoding of the whole input. */
  ghost predicate OnTheWay(input: seq<Byte>, position: nat, sent: seq<Byte>, run: nat) {
    position <= |input| && sent + EncodedFrom(run, input[position..]) == Encoded(input)
  }

  lemma StartsOnTheWay(input: seq<Byte>)
    ensures OnTheWay(input, 0, [], 0)
  {
    FromStart(input);
    assert input[0..] == input && [] + Encoded(input) == Encoded(input);
  }

  lemma KeptByte(input: seq<Byte>, position: nat, sent: seq<Byte>, run: nat)
    requires position < |input| && Kept(input[position]) && OnTheWay(input, position, sent, run)
    ensures OnTheWay(input, position + 1, sent + Flushed(run) + [input[position]], 0)
  {
    var rest := input[position..];
    assert rest[1..] == input[position + 1..];
    assert sent + (Flushed(run) + [rest[0]] + EncodedFrom(0, rest[1..]))
        == sent + Flushed(run) + [rest[0]] + EncodedFrom(0, rest[1..]);
  }

  lemma OtherByte(input: seq<Byte>, position: nat, sent: seq<Byte>, run: nat)
    requires position < |input| && !Kept(input[position]) && OnTheWay(input, position, sent, run)
    ensures OnTheWay(input, position + 1, sent, run + 1)
  {
    assert input[position..][1..] == input[position + 1..];
  }

  lemma Ends(input: seq<Byte>, sent: seq<Byte>, run: nat)
    requires OnTheWay(input, |input|, sent, run)
    ensures sent + Flushed(run) == Encoded(input) && OnTheWay(input, |input|, sent + Flushed(run), 0)
  {
    assert input[|input|..] == [];
    assert Encoded(input) + [] == Encoded(input);
  }

  lemma SentIsPrefix(input: seq<Byte>, position: nat, sent: seq<Byte>, run: nat, n: nat)
    requires OnTheWay(input, position, sent, run) && n <= |sent|
    ensures sent[..n] <= Encoded(input)
  {
  }

  class Process {
    const readBuffer: array<Byte>
    const writeBuffer: array<Byte>
    const input: seq<Byte>
    var position: nat
    var output: seq<Byte>

    ghost predicate Valid()
      reads this
    {
      readBuffer.Length == READ_BUFFER_SIZE && writeBuffer.Length == WRITE_BUFFER_SIZE && readBuffer != writeBuffer
      && position <= |input|
    }

    constructor (file: seq<Byte>)
      ensures Valid() && input == file && position == 0 && output == []
      ensures fresh(readBuffer) && fresh(writeBuffer)
    {
      readBuffer := new Byte[READ_BUFFER_SIZE](_ => 0);
      writeBuffer := new Byte[WRITE_BUFFER_SIZE](_ => 0);
      input, position, output := file, 0, [];
    }

    /** The system reads some of what is left of the input, nothing at its end only, or fails. */
    method SysRead() returns (rax: int)
      requires Valid()
      modifies this`position, readBuffer
      ensures Valid()
      ensures rax < 0 ==> position == old(position)
      ensures rax >= 0 ==> rax <= READ_BUFFER_SIZE && position == old(position) + rax
                           && readBuffer[..rax] == input[old(position)..position]
      ensures rax == 0 <==> (rax >= 0 && old(position) == |input|)
    {
      if * { return -1; }
      var left := |input| - position;
      if left == 0 { return 0; }
      rax :| 1 <= rax <= READ_BUFFER_SIZE && rax <= left by {
        assert 1 <= 1 <= READ_BUFFER_SIZE && 1 <= left;
      }
      for i := 0 to rax
        invariant position == old(position) && readBuffer[..i] == input[position..position + i]
      {
        readBuffer[i] := input[position + i];
      }
      position := position + rax;
    }

    /** The system writes some of the bytes, at least one if there is any, or fails. */
    method SysWrite(offset: nat, count: nat) returns (rax: int)
      requires Valid() && offset + count <= WRITE_BUFFER_SIZE
      modifies this`output
      ensures Valid() && rax <= count && (rax == 0 ==> count == 0)
      ensures output == if rax < 0 then old(output) else old(output) + writeBuffer[offset..offset + rax]
    {
      if * { return -1; }
      if count == 0 {
        rax := 0;
      } else {
        rax :| 1 <= rax <= count by { assert 1 <= count; }
      }
      output := output + writeBuffer[offset..offset + rax];
    }

    /** One read's worth of bytes goes through the registers: r12b tells whether a run is open,
        r13 counts it, r14 is the offset into the write buffer. */
    method BufferLoop(rax: nat, open: bool, count: nat, ghost run: nat, ghost from: nat)
      returns (r12b: bool, r13: nat, r14: nat, ghost run': nat)
      requires Valid() && 0 < rax <= READ_BUFFER_SIZE && position == from + rax
      requires readBuffer[..rax] == input[from..position]
      requires (open <==> run > 0) && Counts(count, run)
      requires OnTheWay(input, from, output, run)
      modifies writeBuffer
      ensures (r12b <==> run' > 0) && Counts(r13, run')
      ensures 2 * r14 <= 3 * rax + 3 && r14 <= WRITE_BUFFER_SIZE
      ensures OnTheWay(input, position, output + writeBuffer[..r14], run')
    {
      hide Kept, Number, OnTheWay, Batch, Flushed, Counts, BatchEnd;
      CountZero();
      var r15 := 0;
      r12b, r13, r14, run' := open, count, 0, run;
      assert output + writeBuffer[..0] == output;
      var r8: nat := 0;
      while r15 < rax
        invariant r15 <= rax && (r12b <==> run' > 0) && Counts(r13, run')
        invariant 2 * r14 + (if r12b then 3 else 0) <= 3 * r15 + 3
        invariant r15 % 8 != 0 ==> r8 == Batch(readBuffer[r15..BatchEnd(r15)])
        invariant OnTheWay(input, from + r15, output + writeBuffer[..r14], run')
      {
        if r15 % 8 == 0 { r8 := Batch(readBuffer[r15..r15 + 8]); }
        BatchIn(readBuffer[..], r15, r8);
        assert readBuffer[r15] == readBuffer[..rax][r15] == input[from + r15];
        var r8b: Byte := r8 % 256;
        ghost var written := writeBuffer[..r14];
        if Kept(r8b) {
          KeptByte(input, from + r15, output + written, run');
          r14 := WriteS(r14, r8b, r12b, r13, run');
          assert output + (written + Flushed(run') + [r8b]) == output + written + Flushed(run') + [r8b];
          if r12b { r13, r12b := 0, false; }
          run' := 0;
        } else {
          OtherByte(input, from + r15, output + written, run');
          CountNext(r13, run');
          r13 := (r13 + 1) % 0x1_0000_0000_0000_0000;
          r12b := true;
          run' := run' + 1;
        }
        r8 := r8 / 256;
        r15 := r15 + 1;
      }
    }

    /** An open run goes into the write buffer, then the kept byte. */
    method WriteS(offset: nat, r8b: Byte, r12b: bool, r13: nat, ghost run: nat) returns (r14: nat)
      requires Valid() && offset + 3 <= WRITE_BUFFER_SIZE
      requires (r12b <==> run > 0) && (r12b ==> Counts(r13, run))
      modifies writeBuffer
      ensures r14 == offset + if r12b then 3 else 1
      ensures writeBuffer[..r14] == old(writeBuffer[..offset]) + Flushed(run) + [r8b]
    {
      r14 := offset;
      if r12b {
        PutNumber(r14, r13);
        r14 := r14 + 2;
      }
      assert writeBuffer[..r14] == old(writeBuffer[..offset]) + Flushed(run);
      writeBuffer[r14] := r8b;
      r14 := r14 + 1;
      assert writeBuffer[..r14] == old(writeBuffer[..offset]) + Flushed(run) + [r8b];
    }

    /** The low 16 bits of the count go into the write buffer. */
    method PutNumber(offset: nat, r13: nat)
      requires Valid() && offset + 2 <= WRITE_BUFFER_SIZE
      modifies writeBuffer
      ensures writeBuffer[..offset + 2] == old(writeBuffer[..offset]) + Number(r13 % 65536)
    {
      writeBuffer[offset], writeBuffer[offset + 1] := r13 % 65536 % 256, r13 % 65536 / 256;
      assert r13 % 65536 / 256 % 256 == r13 % 65536 / 256;
    }

    /** Everything in the write buffer is written, in as many pieces as it takes. */
    method WriteToFile(count: nat) returns (ok: bool)
      requires Valid() && count <= WRITE_BUFFER_SIZE
      modifies this`output
      ensures Valid()
      ensures ok ==> output == old(output) + writeBuffer[..count]
      ensures exists n :: 0 <= n <= count && output == old(output) + writeBuffer[..n]
    {
      var r15, r14: int := 0, count;
      assert output + writeBuffer[..0] == output;
      while true
        invariant 0 <= r14 && 0 <= r15 && r15 + r14 == count
        invariant output == old(output) + writeBuffer[..r15]
        decreases r14
      {
        var rax := SysWrite(r15, r14);
        if rax < 0 {
          assert r15 <= count && output == old(output) + writeBuffer[..r15];
          return false;
        }
        assert writeBuffer[..r15] + writeBuffer[r15..r15 + rax] == writeBuffer[..r15 + rax];
        r15 := r15 + rax;
        r14 := r14 - rax;
        if r14 <= 0 { return true; }
      }
    }

    /** Copies the file. The exit code is 0 only if the output is the encoding of the input; an
        output that was given up is the beginning of it. */
    method LoopThroughFile() returns (r8b: nat)
      requires Valid() && position == 0 && output == []
      modifies this`position, this`output, readBuffer, writeBuffer
      ensures r8b == 0 ==> output == Encoded(input)
      ensures r8b != 0 ==> output <= Encoded(input)
    {
      hide OnTheWay, Flushed;
      var r12b, r13: nat := false, 0;
      ghost var run := 0;
      StartsOnTheWay(input);
      while true
        invariant Valid() && (r12b <==> run > 0)
        invariant position < |input| || r12b ==> Counts(r13, run)
        invariant OnTheWay(input, position, output, run)
        decreases |input| - position, if r12b then 1 else 0
      {
        ghost var from := position;
        var rax := SysRead();
        var r14 := 0;
        SentIsPrefix(input, from, output, run, |output|);
        assert output[..|output|] == output;
        if rax < 0 { return 1; }
        ghost var written := output;
        if rax == 0 {
          Ends(input, output, run);
          NothingOpen(run);
          if !r12b {
            assert output + [] == output;
            return 0;
          }
          PutNumber(0, r13);
          assert writeBuffer[..0] + Number(r13 % 65536) == Number(r13 % 65536);
          r14, r12b, run := 2, false, 0;
        } else {
          r12b, r13, r14, run := BufferLoop(rax, r12b, r13, run, from);
        }
        ghost var all := output + writeBuffer[..r14];
        var ok := WriteToFile(r14);
        if !ok {
          ghost var n :| 0 <= n <= r14 && output == written + writeBuffer[..n];
          SentIsPrefix(input, position, all, run, |written| + n);
          assert all[..|written| + n] == output;
          return 1;
        }
      }
    }
  }

  lemma NothingOpen(run: nat)
    ensures Flushed(run) == if run == 0 then [] else Number(run % 65536)
  {
  }
}
