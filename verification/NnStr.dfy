/** The byte buffer behind the codec: it grows by one doubling per write that overflows. */
module NnStr {
  import opened Bytes

  // ----- How far one doubling goes -----

  /** Capacity and write position of an allocated buffer. */
  datatype Extent = Extent(cap: nat, pos: nat)

  function Grown(b: Extent, n: nat): Extent {
    Extent(if b.pos + n > b.cap then 2 * b.cap else b.cap, b.pos + n)
  }

  predicate InBounds(b: Extent) { b.pos <= b.cap }

  /** All writes of a run, given by their lengths, stay inside the buffer. */
  predicate SafeRun(b: Extent, lens: seq<nat>)
    decreases |lens|
  {
    |lens| > 0 ==> InBounds(Grown(b, lens[0])) && SafeRun(Grown(b, lens[0]), lens[1..])
  }

  /** Writes of 1 to `m` bytes whose first one fits the first allocation of `c` bytes. */
  predicate Legal(c: nat, m: nat, lens: seq<nat>) {
    |lens| > 0 && lens[0] <= c && forall i :: 0 <= i < |lens| ==> 1 <= lens[i] <= m
  }

  lemma {:induction false} RoomyRunIsSafe(b: Extent, m: nat, lens: seq<nat>)
    requires InBounds(b) && m <= b.cap && forall i :: 0 <= i < |lens| ==> lens[i] <= m
    ensures SafeRun(b, lens)
    decreases |lens|
  {
    if |lens| > 0 {
      forall i | 0 <= i < |lens[1..]|
        ensures lens[1..][i] <= m
      {
        assert lens[1..][i] == lens[i + 1];
      }
      RoomyRunIsSafe(Grown(b, lens[0]), m, lens[1..]);
    }
  }

  /** Every run of writes of at most `m` bytes stays in bounds exactly when the first
      allocation holds at least `m` bytes. */
  lemma SafeIff(c: nat, m: nat)
    requires c >= 1
    ensures (forall lens :: Legal(c, m, lens) ==> SafeRun(Extent(c, 0), lens)) <==> m <= c
  {
    if m <= c {
      forall lens | Legal(c, m, lens)
        ensures SafeRun(Extent(c, 0), lens)
      {
        RoomyRunIsSafe(Extent(c, 0), m, lens);
      }
    } else {
      var lens := [c, m];
      assert lens[1..] == [m];
      assert Legal(c, m, lens) && !SafeRun(Extent(c, 0), lens);
    }
  }

  // ----- The buffer -----

  class Buffer {
    var buf: array?<byte>
    var size: nat
    var pos: nat
    /** What `malloc_usable_size` reports for the first allocation. */
    const usable: nat

    ghost predicate Valid()
      reads this, buf
    {
      && pos <= size
      && (buf == null ==> pos == 0)
      && (buf != null ==> buf.Length == size)
    }

    /** The bytes written so far. */
    ghost function Contents(): seq<byte>
      requires Valid()
      reads this, buf
    {
      if buf == null then [] else buf[..pos]
    }

    /** The bytes not read yet. */
    ghost function Remaining(): seq<byte>
      requires Valid()
      reads this, buf
    {
      if buf == null then [] else buf[pos..]
    }

    /** An empty buffer for writing: no memory yet. */
    constructor ForWriting(usable: nat)
      ensures Valid() && buf == null && size == 0 && this.usable == usable
    {
      buf, size, pos := null, 0, 0;
      this.usable := usable;
    }

    /** `mux_nnstr_init` around received bytes. */
    constructor ForReading(data: array<byte>)
      ensures Valid() && buf == data && pos == 0 && Remaining() == data[..]
    {
      buf, size, pos := data, data.Length, 0;
      usable := 0;
    }

    /** Where a write of `n` bytes ends, and how large the buffer then is. */
    ghost function AfterWrite(n: nat): Extent
      reads this
    {
      if buf == null then Extent(usable, n) else Grown(Extent(size, pos), n)
    }

    /** `mux_msg_writer`. Its memcpy is in bounds only if one doubling is enough; a zero
        return is all the caller learns of an empty first write. */
    method Write(data: seq<byte>) returns (n: nat)
      requires Valid() && InBounds(AfterWrite(|data|))
      modifies this, buf
      ensures Valid() && (buf == old(buf) || fresh(buf))
      ensures Contents() == old(Contents()) + data && n == |data|
      ensures |data| > 0 || old(buf) != null ==> buf != null && Extent(size, pos) == old(AfterWrite(|data|))
      ensures |data| == 0 && old(buf) == null ==> buf == null && size == old(size)
    {
      if buf == null {
        if |data| == 0 {
          return 0;
        }
        buf := new byte[usable];
        size := usable;
      } else if pos + |data| > size {
        var bigger := new byte[2 * size];
        forall i | 0 <= i < size {
          bigger[i] := buf[i];
        }
        assert bigger[..pos] == buf[..pos];
        buf := bigger;
        size := 2 * size;
      }
      label Stored:
      forall i | 0 <= i < |data| {
        buf[pos + i] := data[i];
      }
      assert buf[..pos] == old@Stored(buf[..pos]);
      pos := pos + |data|;
      n := |data|;
    }

    /** `mux_msg_reader`. */
    method Read(limit: nat) returns (ok: bool, data: seq<byte>)
      requires Valid() && buf != null
      modifies this`pos
      ensures Valid() && ok == (limit <= |old(Remaining())|)
      ensures ok ==> data == old(Remaining())[..limit] && Remaining() == old(Remaining())[limit..]
      ensures !ok ==> pos == old(pos) && data == []
    {
      if pos + limit > size {
        return false, [];
      }
      data := buf[pos..pos + limit];
      pos := pos + limit;
      ok := true;
    }
  }

  function Flatten(datas: seq<seq<byte>>): seq<byte>
    decreases |datas|
  {
    if |datas| == 0 then [] else Flatten(datas[..|datas| - 1]) + datas[|datas| - 1]
  }

  /** Any sequence of writes of 1 to 8 bytes into a fresh buffer whose first allocation holds
      8 bytes: every one is in bounds, and the buffer then starts with all of them in order. */
  method WriteAll(b: Buffer, datas: seq<seq<byte>>)
    requires b.Valid() && b.buf == null && b.usable >= 8
    requires forall i :: 0 <= i < |datas| ==> 1 <= |datas[i]| <= 8
    modifies b
    ensures b.Valid() && b.Contents() == Flatten(datas) && b.pos <= b.size
  {
    var i := 0;
    while i < |datas|
      invariant 0 <= i <= |datas| && b.Valid() && (b.buf != null ==> b.size >= 8 && fresh(b.buf))
      invariant b.Contents() == Flatten(datas[..i])
    {
      var n := b.Write(datas[i]);
      assert datas[..i + 1][..i] == datas[..i];
      i := i + 1;
    }
    assert datas[..i] == datas;
  }
}
