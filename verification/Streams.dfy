/**
 Readers and writers as the operating system may present them: a read returns any
 positive number of bytes that fit, may be interrupted finitely often and, when
 the stream is `flaky`, may fail; a failed write may have written any prefix.
 */
module Streams {
  import opened Bytes
  import opened Results

  datatype ReadOutcome = Count(n: nat) | Interrupted | Failed

  class Reader {
    const data: seq<byte>
    const flaky: bool
    var pos: nat
    var interrupts: nat

    constructor (data: seq<byte>, flaky: bool, interrupts: nat)
      ensures Valid() && this.data == data && this.flaky == flaky && pos == 0
    {
      this.data, this.flaky, this.pos, this.interrupts := data, flaky, 0, interrupts;
    }

    ghost predicate Valid()
      reads this`pos
    {
      pos <= |data|
    }

    /** The bytes not read yet. */
    ghost function Rest(): seq<byte>
      requires Valid()
      reads this`pos
    {
      data[pos..]
    }

    /** One read into `buffer[from..]`: zero bytes exactly at the end of the data. */
    method Read(buffer: array<byte>, from: nat) returns (outcome: ReadOutcome)
      requires Valid() && from < buffer.Length
      modifies this`pos, this`interrupts, buffer
      ensures Valid() && interrupts <= old(interrupts)
      ensures outcome.Count? ==>
        && outcome.n <= buffer.Length - from && outcome.n <= |old(Rest())|
        && (outcome.n == 0 <==> old(Rest()) == [])
        && Rest() == old(Rest())[outcome.n..]
        && buffer[..from + outcome.n] == old(buffer[..from]) + old(Rest())[..outcome.n]
      ensures !outcome.Count? ==> pos == old(pos) && buffer[..from] == old(buffer[..from])
      ensures outcome.Interrupted? ==> interrupts < old(interrupts)
      ensures outcome.Failed? ==> flaky
    {
      var whim: int := *;
      var wanted: int := *;
      if whim == 0 && interrupts > 0 {
        interrupts := interrupts - 1;
        return Interrupted;
      } else if whim == 1 && flaky {
        return Failed;
      }
      var room := buffer.Length - from;
      var available := |data| - pos;
      var most: nat := if room <= available then room else available;
      var n: nat := if 1 <= wanted <= most then wanted else most;
      ghost var before := buffer[..from];
      forall i | 0 <= i < n {
        buffer[from + i] := data[pos + i];
      }
      assert buffer[..from] == before;
      assert buffer[from..from + n] == data[pos..][..n];
      assert buffer[..from + n] == buffer[..from] + buffer[from..from + n];
      pos := pos + n;
      return Count(n);
    }
  }

  /** Retries interrupted reads. */
  method NextRead(reader: Reader, buffer: array<byte>, from: nat) returns (r: Result<nat>)
    requires reader.Valid() && from < buffer.Length
    modifies reader`pos, reader`interrupts, buffer
    ensures reader.Valid() && reader.interrupts <= old(reader.interrupts)
    ensures r.Ok? ==>
      && r.value <= buffer.Length - from && r.value <= |old(reader.Rest())|
      && (r.value == 0 <==> old(reader.Rest()) == [])
      && reader.Rest() == old(reader.Rest())[r.value..]
      && buffer[..from + r.value] == old(buffer[..from]) + old(reader.Rest())[..r.value]
    ensures r.Err? ==> r.error == IoError(OtherIo) && reader.flaky
  {
    while true
      invariant reader.Valid() && reader.Rest() == old(reader.Rest())
      invariant buffer[..from] == old(buffer[..from])
      invariant reader.interrupts <= old(reader.interrupts)
      decreases reader.interrupts
    {
      var outcome := reader.Read(buffer, from);
      match outcome
      case Interrupted =>
      case Failed => return Err(IoError(OtherIo));
      case Count(n) => return Ok(n);
    }
  }

  /** Fills the buffer from `from` on, until it is full or the data ends. */
  method Fill(reader: Reader, buffer: array<byte>, from: nat) returns (filled: nat, r: Result<()>)
    requires reader.Valid() && from <= buffer.Length
    modifies reader`pos, reader`interrupts, buffer
    ensures reader.Valid() && from <= filled <= buffer.Length
    ensures r.Ok? ==>
      && filled - from ==
         (if |old(reader.Rest())| < buffer.Length - from then |old(reader.Rest())| else buffer.Length - from)
      && reader.Rest() == old(reader.Rest())[filled - from..]
      && buffer[..filled] == old(buffer[..from]) + old(reader.Rest())[..filled - from]
    ensures r.Err? ==> r.error == IoError(OtherIo) && reader.flaky
  {
    filled := from;
    ghost var rest := reader.Rest();
    while filled < buffer.Length
      invariant reader.Valid() && from <= filled <= buffer.Length
      invariant filled - from <= |rest| && reader.Rest() == rest[filled - from..]
      invariant buffer[..filled] == old(buffer[..from]) + rest[..filled - from]
      decreases buffer.Length - filled
    {
      var read := NextRead(reader, buffer, filled);
      if read.Err? {
        return filled, Err(read.error);
      }
      if read.value == 0 {
        break;
      }
      SliceStep(rest, filled - from, read.value);
      filled := filled + read.value;
    }
    r := Ok(());
  }

  lemma SliceStep(s: seq<byte>, i: nat, n: nat)
    requires i + n <= |s|
    ensures s[i..][n..] == s[i + n..]
    ensures s[..i] + s[i..][..n] == s[..i + n]
  {
  }

  /** `read_exact` with the end of the data reported as a format error. */
  method ReadExactFormat(reader: Reader, buffer: array<byte>) returns (r: Result<()>)
    requires reader.Valid()
    modifies reader`pos, reader`interrupts, buffer
    ensures reader.Valid()
    ensures r.Ok? ==>
      && |old(reader.Rest())| >= buffer.Length
      && buffer[..] == old(reader.Rest())[..buffer.Length]
      && reader.Rest() == old(reader.Rest())[buffer.Length..]
    ensures r.Err? ==>
      || (r.error == InvalidFileFormat && |old(reader.Rest())| < buffer.Length)
      || (r.error == IoError(OtherIo) && reader.flaky)
  {
    var filled, outcome := Fill(reader, buffer, 0);
    if outcome.Err? {
      return outcome;
    }
    if filled < buffer.Length {
      return Err(InvalidFileFormat);
    }
    assert buffer[..] == buffer[..filled];
    r := Ok(());
  }

  class Writer {
    const flaky: bool
    var written: seq<byte>

    constructor (flaky: bool)
      ensures this.flaky == flaky && written == []
    {
      this.flaky, this.written := flaky, [];
    }

    /** Appends all of `data`, or fails after appending some prefix of it. */
    method WriteAll(data: seq<byte>) returns (r: Result<()>)
      modifies this`written
      ensures r.Ok? ==> written == old(written) + data
      ensures r.Err? ==> r.error == IoError(OtherIo) && flaky
      ensures old(written) <= written <= old(written) + data
    {
      var broken: bool := *;
      var n: int := *;
      if broken && flaky {
        written := written + data[..if 0 <= n <= |data| then n else |data|];
        return Err(IoError(OtherIo));
      }
      written := written + data;
      r := Ok(());
    }
  }
}
