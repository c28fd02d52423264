/** kernel/pipe.c. Each method is what happens between taking pi->lock and sleeping or returning; readers, writers and
    closers may call them in any order. */
module Pipe {

  const PIPESIZE := 512
  const WORDS := 0x1_0000_0000            // counters are 32 bits wide

  type Byte = bv8

  /** Failed is the -1 of pipewrite and piperead, Asleep that they have gone to sleep. */
  datatype Outcome = Returned | Asleep | Failed

  /** Free-running counters that wrap at 2^32 still index the ring: 512 divides 2^32. */
  lemma Index(n: nat)
    ensures n % WORDS % PIPESIZE == n % PIPESIZE
    ensures (n % WORDS + 1) % WORDS == (n + 1) % WORDS
  {
    assert n == n / WORDS * WORDS + n % WORDS;
  }

  /** What the ring holds between `got` and `put` bytes. */
  ghost predicate Holds(data: seq<Byte>, put: seq<Byte>, got: seq<Byte>) {
    && |data| == PIPESIZE && got <= put && |put| - |got| <= PIPESIZE
    && forall k :: |got| <= k < |put| ==> data[k % PIPESIZE] == put[k]
  }

  lemma PutByte(data: seq<Byte>, put: seq<Byte>, got: seq<Byte>, ch: Byte)
    requires Holds(data, put, got) && |put| - |got| < PIPESIZE
    ensures Holds(data[|put| % PIPESIZE := ch], put + [ch], got)
  {
    forall k | |got| <= k < |put| ensures k % PIPESIZE != |put| % PIPESIZE {
      Apart(k, |put|);
    }
  }

  lemma Apart(a: nat, b: nat)
    requires a < b < a + PIPESIZE
    ensures a % PIPESIZE != b % PIPESIZE
  {}

  lemma GetByte(data: seq<Byte>, put: seq<Byte>, got: seq<Byte>)
    requires Holds(data, put, got) && got != put
    ensures |got| < |put| && data[|got| % PIPESIZE] == put[|got|] && Holds(data, put, got + [put[|got|]])
  {
    assert |got| < |put|;
  }

  /** The tests of the code on wrapped counters tell empty and full. */
  lemma Counters(p: nat, g: nat)
    requires g <= p <= g + PIPESIZE
    ensures g % WORDS == p % WORDS <==> p == g
    ensures p % WORDS == (g % WORDS + PIPESIZE) % WORDS <==> p == g + PIPESIZE
  {
    Same(g, p);
    Same(p, g + PIPESIZE);
  }

  lemma Same(a: nat, b: nat)
    requires a <= b < a + WORDS
    ensures a % WORDS == b % WORDS <==> a == b
  {
    assert a == a / WORDS * WORDS + a % WORDS && b == b / WORDS * WORDS + b % WORDS;
  }

  function Min(a: int, b: int): int { if a < b then a else b }

  function Max(a: int, b: int): int { if a < b then b else a }

  /** A writer at byte `i` of `n` gets as far as byte `k`, where it is found killed: `len` bytes can be read and `space`
      fit into the pipe. */
  predicate KilledAt(k: int, i: int, n: int, len: int, space: int) {
    k < n && k <= len && k - i <= space
  }

  class Pipe {
    const data: array<Byte>
    var nread: nat
    var nwrite: nat
    var readopen: bool
    var writeopen: bool
    var readers: nat                      // asleep on &pi->nread
    var writers: nat                      // asleep on &pi->nwrite
    ghost var put: seq<Byte>              // every byte ever put in
    ghost var got: seq<Byte>              // every byte ever taken out

    /** A FIFO: what was taken out is a prefix of what was put in, and the rest, at most PIPESIZE bytes, is in the
        ring. */
    ghost predicate Valid()
      reads this, data
    {
      && Holds(data[..], put, got) && nread == |got| % WORDS && nwrite == |put| % WORDS
      && (writers > 0 ==> |put| - |got| == PIPESIZE && readopen)
    }

    /** Nobody waits for bytes that are there, or for a writer that is gone. */
    ghost predicate NoStuckReader()
      reads this
    {
      readers > 0 ==> put == got && writeopen
    }

    constructor ()
      ensures Valid() && NoStuckReader() && put == got == [] && readopen && writeopen && fresh(data)
    {
      data := new Byte[PIPESIZE];
      nread, nwrite, readopen, writeopen, readers, writers := 0, 0, true, true, 0, 0;
      put, got := [], [];
    }

    /** pipewrite from byte `i` on. The first `|src|` bytes at the address can be read; the process is found killed
        once it has written up to byte `killAt`. */
    method Write(src: seq<Byte>, i: nat, n: int, killAt: nat) returns (r: Outcome, j: nat)
      requires Valid() && i <= |src| && (n >= 0 ==> i <= n)
      modifies data, this`nwrite, this`readers, this`writers, this`put
      ensures Valid() && i <= j <= |src| && put == old(put) + src[i..j]
      ensures j > i ==> readopen && j <= killAt
      ensures r.Returned? ==> (j >= n || j == |src|) && readers == 0 && writers == old(writers)
      ensures r.Asleep? ==>
                j < n && |put| - |got| == PIPESIZE && readopen && readers == 0 && writers == old(writers) + 1
      ensures r.Failed? ==> j < n && (!readopen || j >= killAt) && readers == old(readers) && writers == old(writers)
      ensures r.Failed? <==>
                i < n && (!readopen || KilledAt(Max(i, killAt), i, n, |src|, PIPESIZE - old(|put| - |got|)))
      ensures old(NoStuckReader()) ==>
                (NoStuckReader() <==>
                   !(old(readers) > 0 && readopen && i < killAt && KilledAt(killAt, i, n, |src|, PIPESIZE)))
    {
      hide Holds;
      j := i;
      CountersOf(data[..], put, got);
      assert src[i..i] == [] && put + [] == put;
      while j < n
        invariant Valid() && i <= j <= |src| && put == old(put) + src[i..j] && (n >= 0 ==> j <= n)
        invariant readers == old(readers) && writers == old(writers) && (j > i ==> readopen && j <= killAt)
        invariant got == old(got) && |put| <= |got| + PIPESIZE
      {
        if !readopen || j >= killAt {
          return Failed, j;
        }
        CountersOf(data[..], put, got);
        if nwrite == (nread + PIPESIZE) % WORDS {
          readers, writers := 0, writers + 1;
          return Asleep, j;
        }
        if j >= |src| {
          break;
        }
        PutByte(data[..], put, got, src[j]);
        Index(|put|);
        ghost var d0 := data[..];
        data[nwrite % PIPESIZE] := src[j];
        nwrite := (nwrite + 1) % WORDS;
        put := put + [src[j]];
        assert data[..] == d0[(|put| - 1) % PIPESIZE := src[j]];
        assert src[i..j + 1] == src[i..j] + [src[j]];
        j := j + 1;
      }
      readers := 0;
      r := Returned;
    }

    /** piperead. Only the first `room` bytes of the destination can be stored to. `taken` leave the pipe, the first
        `|bytes|` of them are delivered; a byte is lost exactly when the destination ends before `n` and before the
        pipe is empty. */
    method Read(n: int, killed: bool, room: nat) returns (r: Outcome, bytes: seq<Byte>, ghost taken: seq<Byte>)
      requires Valid()
      modifies this`nread, this`readers, this`writers, this`got
      ensures Valid() && got == old(got) + taken && bytes <= taken && |taken| <= |bytes| + 1
      ensures r.Failed? <==> old(put == got) && writeopen && killed
      ensures r.Asleep? <==> old(put == got) && writeopen && !killed
      ensures !r.Returned? ==> taken == [] && writers == old(writers)
      ensures readers == old(readers) + if r.Asleep? then 1 else 0
      ensures r.Returned? ==> writers == 0 && |bytes| == Min(Min(Max(n, 0), room), old(|put| - |got|))
      ensures |taken| == |bytes| + 1 <==> r.Returned? && room < n && room < old(|put| - |got|)
      ensures old(NoStuckReader()) ==> NoStuckReader()
    {
      hide Holds;
      bytes, taken := [], [];
      CountersOf(data[..], put, got);
      if nread == nwrite && writeopen {
        if killed {
          return Failed, [], [];
        }
        readers := readers + 1;
        return Asleep, [], [];
      }
      bytes, taken := Drain(n, room);
      writers := 0;
      r := Returned;
    }

    /** The copy loop of piperead. */
    method Drain(n: int, room: nat) returns (bytes: seq<Byte>, ghost taken: seq<Byte>)
      requires Valid()
      modifies this`nread, this`got
      ensures Holds(data[..], put, got) && nread == |got| % WORDS && got == old(got) + taken && bytes <= taken
      ensures |bytes| == Min(Min(Max(n, 0), room), old(|put| - |got|))
      ensures |taken| == |bytes| + if room < n && room < old(|put| - |got|) then 1 else 0
    {
      hide Holds;
      CountersOf(data[..], put, got);
      bytes, taken := [], [];
      while |bytes| < n
        invariant Holds(data[..], put, got) && nread == |got| % WORDS && nwrite == |put| % WORDS && |got| <= |put|
        invariant got == old(got) + taken && taken == bytes && |bytes| <= room && |bytes| <= Max(n, 0)
        decreases n - |bytes|
      {
        CountersOf(data[..], put, got);
        if nread == nwrite {
          break;
        }
        GetByte(data[..], put, got);
        Index(|got|);
        var ch := data[nread % PIPESIZE];
        nread := (nread + 1) % WORDS;
        got, taken := got + [ch], taken + [ch];
        if |bytes| >= room {
          break;
        }
        bytes := bytes + [ch];
      }
    }

    /** pipeclose: everybody asleep on the other end is woken; `last` says that both ends are closed and the pipe is
        freed. */
    method Close(writable: bool) returns (last: bool)
      requires Valid()
      modifies this`readopen, this`writeopen, this`readers, this`writers
      ensures Valid() && (last <==> !readopen && !writeopen)
      ensures readopen == (old(readopen) && writable) && writeopen == (old(writeopen) && !writable)
      ensures if writable then readers == 0 && writers == old(writers) else writers == 0 && readers == old(readers)
      ensures old(NoStuckReader()) ==> NoStuckReader()
    {
      if writable {
        writeopen := false;
        readers := 0;
      } else {
        readopen := false;
        writers := 0;
      }
      last := !readopen && !writeopen;
    }
  }

  lemma CountersOf(data: seq<Byte>, put: seq<Byte>, got: seq<Byte>)
    requires Holds(data, put, got)
    ensures |got| <= |put| <= |got| + PIPESIZE && |data| == PIPESIZE && (put == got <==> |put| == |got|)
    ensures |got| % WORDS == |put| % WORDS <==> put == got
    ensures |put| % WORDS == (|got| % WORDS + PIPESIZE) % WORDS <==> |put| == |got| + PIPESIZE
  {
    Counters(|put|, |got|);
  }

  /** A writer that is killed after putting bytes in returns without waking readers: one byte, one sleeping reader. */
  method StrandedReader() returns (p: Pipe)
    ensures p.Valid() && !p.NoStuckReader() && p.writeopen && |p.put| == 1 && p.got == []
  {
    p := new Pipe();
    var r, bytes, taken := p.Read(1, false, 1);
    var w, j := p.Write([1, 2], 0, 2, 1);
  }
}
