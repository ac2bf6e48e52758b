/**
  pipe.c: a ring of PIPESIZE = 512 bytes indexed by 32-bit counters that wrap.  Each
  method is what a process does while it holds the pipe's lock: from acquiring
  it, or waking up with it, until it returns or goes to sleep.  Any number of
  readers and writers call the methods in any order.
 */
module Pipe {
  import opened Blocks

  type Proc = nat

  datatype Channel = Nread | Nwrite

  datatype WriteResult = Wrote(n: nat) | WriteFailed | WriteSleeps(next: nat)
  datatype ReadResult = Got(bytes: seq<Byte>) | ReadFailed | ReadSleeps

  // wakeup(ch), as the sleepers see it.
  function Woken(asleep: map<Proc, Channel>, ch: Channel): map<Proc, Channel> {
    map p | p in asleep && asleep[p] != ch :: asleep[p]
  }

  /*** Wrapping counters ***/

  function Wrap(n: nat): (w: nat) {
    n % 0x1_0000_0000
  }

  lemma WholeTurns(q: nat, r: nat)
    ensures (512 * q + r) % 512 == r % 512
  {
  }

  // The ring position of a wrapped counter is that of the true count.
  lemma WrapIndex(n: nat)
    ensures Wrap(n) % 512 == n % 512
  {
    var k, r := n / 0x1_0000_0000, n % 0x1_0000_0000;
    assert n == 512 * (8388608 * k) + r;
    WholeTurns(8388608 * k, r);
  }

  /** With at most PIPESIZE bytes in flight, the comparisons of wrapped counters mean what they say. */
  lemma WrapCompare(w: nat, t: nat)
    requires t <= w <= t + 512
    ensures Wrap(w) == Wrap(Wrap(t) + 512) <==> w == t + 512
    ensures Wrap(w) == Wrap(t) <==> w == t
  {
    assert Wrap(Wrap(t) + 512) == Wrap(t + 512);
  }

  lemma WrapStep(n: nat)
    ensures Wrap(Wrap(n) + 1) == Wrap(n + 1)
  {
  }

  // Two positions of the ring that are less than PIPESIZE apart are different slots.
  lemma SlotsDiffer(a: nat, b: nat)
    requires a < b < a + 512
    ensures a % 512 != b % 512
  {
  }

  // How many bytes fit in behind the written ones.
  function Room(written: nat, taken: nat): int {
    taken + 512 - written
  }

  class Ring {
    const data: array<Byte>
    var nread: nat
    var nwrite: nat
    var readopen: bool
    var writeopen: bool
    var asleep: map<Proc, Channel>
    ghost var written: seq<Byte>   // every byte ever written
    ghost var taken: nat           // how many of them have been read

    constructor ()
      ensures Valid() && ReadersOk() && written == [] && taken == 0 && readopen && writeopen && asleep == map[] && fresh(data)
    {
      data := new Byte[512];
      nread, nwrite, readopen, writeopen, asleep := 0, 0, true, true, map[];
      written, taken := [], 0;
    }

    // The counters count, and the bytes in flight are in the ring.
    ghost predicate RingOk()
      reads this, data
    {
      && data.Length == 512
      && taken <= |written| <= taken + 512
      && nwrite == Wrap(|written|) && nread == Wrap(taken)
      && forall k | taken <= k < |written| :: data[k % 512] == written[k]
    }

    // A writer asleep on nwrite faces a full pipe whose read end is open.
    ghost predicate WritersOk()
      reads this
    {
      forall p | p in asleep && asleep[p] == Nwrite :: |written| == taken + 512 && readopen
    }

    ghost predicate Valid()
      reads this, data
    {
      RingOk() && WritersOk()
    }

    // A reader asleep on nread faces an empty pipe whose write end is open.
    ghost predicate ReadersOk()
      reads this
    {
      forall p | p in asleep && asleep[p] == Nread :: |written| == taken && writeopen
    }

    method Wakeup(ch: Channel)
      modifies this`asleep
      ensures asleep == Woken(old(asleep), ch)
    {
      asleep := map p | p in asleep && asleep[p] != ch :: asleep[p];
    }

    // kill wakes a sleeping process whatever it waits for.
    method Kill(p: Proc)
      requires Valid()
      modifies this`asleep
      ensures Valid() && asleep == old(asleep) - {p} && (old(ReadersOk()) ==> ReadersOk())
    {
      asleep := asleep - {p};
    }

    method PutByte(c: Byte)
      requires RingOk() && |written| < taken + 512
      modifies this`nwrite, this`written, data
      ensures RingOk() && written == old(written) + [c]
    {
      WrapIndex(|written|);
      WrapStep(|written|);
      forall k | taken <= k < |written|
        ensures k % 512 != |written| % 512
      {
        SlotsDiffer(k, |written|);
      }
      data[nwrite % 512] := c;
      nwrite := (nwrite + 1) % 0x1_0000_0000;
      written := written + [c];
    }

    method TakeByte() returns (c: Byte)
      requires RingOk() && taken < |written|
      modifies this`nread, this`taken
      ensures RingOk() && taken == old(taken) + 1 && c == written[old(taken)]
    {
      WrapIndex(taken);
      WrapStep(taken);
      c := data[nread % 512];
      nread := (nread + 1) % 0x1_0000_0000;
      taken := taken + 1;
    }

    /**
      pipewrite by process p, continuing at byte i: the bytes go in, in order,
      behind all earlier ones.  It ends exactly when they fit; if not, the pipe
      is filled, and it sleeps unless killed or without a read end.
     */
    method Write(p: Proc, addr: seq<Byte>, i: nat, killed: bool) returns (r: WriteResult)
      requires Valid() && i <= |addr| && p !in asleep
      modifies this`nwrite, this`written, this`asleep, data
      ensures Valid()
      ensures r.Wrote? <==> |addr| - i <= Room(|old(written)|, taken)
      ensures r.WriteSleeps? <==> |addr| - i > Room(|old(written)|, taken) && readopen && !killed
      ensures r.Wrote? ==> r.n == |addr| && written == old(written) + addr[i..] && asleep == Woken(old(asleep), Nread)
      ensures r.WriteSleeps? ==>
                && r.next == i + Room(|old(written)|, taken) && written == old(written) + addr[i..r.next]
                && asleep == Woken(old(asleep), Nread)[p := Nwrite]
      // A sleeping reader is left with something to read exactly by a write that does not fit and then fails.
      ensures old(ReadersOk()) ==>
                (ReadersOk() <==>
                 !(&& |addr| - i > Room(|old(written)|, taken) && (killed || !readopen)
                   && exists q | q in old(asleep) :: old(asleep)[q] == Nread))
      ensures r.WriteFailed? ==>
                written == old(written) + addr[i..i + Room(|old(written)|, taken)] && asleep == old(asleep)
    {
      var j := i;
      while j < |addr|
        invariant i <= j <= |addr|
        invariant Valid() && asleep == old(asleep) && written == old(written) + addr[i..j]
      {
        WrapCompare(|written|, taken);
        if nwrite == (nread + 512) % 0x1_0000_0000 {
          if !readopen || killed {
            return WriteFailed;
          }
          Wakeup(Nread);
          asleep := asleep[p := Nwrite];
          return WriteSleeps(j);
        }
        assert forall q | q in asleep :: asleep[q] != Nwrite;
        PutByte(addr[j]);
        j := j + 1;
      }
      Wakeup(Nread);
      return Wrote(|addr|);
    }

    /**
      piperead by process p: it sleeps exactly on an empty pipe with a write
      end, unless killed; otherwise the next bytes in order, all that are there
      up to n, so none at all means the end of the file.  Writers are woken.
     */
    method Read(p: Proc, n: nat, killed: bool) returns (r: ReadResult)
      requires Valid() && p !in asleep
      modifies this`nread, this`taken, this`asleep
      ensures Valid() && written == old(written) && (old(ReadersOk()) ==> ReadersOk())
      ensures r.Got? <==> old(taken) < |written| || !writeopen
      ensures r.ReadSleeps? <==> old(taken) == |written| && writeopen && !killed
      ensures r.ReadFailed? <==> old(taken) == |written| && writeopen && killed
      ensures r.Got? && n > 0 ==> (r.bytes == [] <==> old(taken) == |written|)
      ensures r.Got? ==>
                && taken == old(taken) + |r.bytes| && r.bytes == written[old(taken)..taken]
                && |r.bytes| == (if |written| - old(taken) < n then |written| - old(taken) else n)
                && asleep == Woken(old(asleep), Nwrite)
      ensures r.ReadSleeps? ==> taken == old(taken) && asleep == old(asleep)[p := Nread]
      ensures r.ReadFailed? ==> taken == old(taken) && asleep == old(asleep)
    {
      WrapCompare(|written|, taken);
      if nread == nwrite && writeopen {
        if killed {
          return ReadFailed;
        }
        asleep := asleep[p := Nread];
        return ReadSleeps;
      }
      var bytes: seq<Byte> := [];
      while |bytes| < n
        invariant |bytes| <= n && RingOk() && taken == old(taken) + |bytes| && bytes == written[old(taken)..taken]
        invariant asleep == old(asleep)
        decreases n - |bytes|
      {
        WrapCompare(|written|, taken);
        if nread == nwrite {
          break;
        }
        var c := TakeByte();
        bytes := bytes + [c];
      }
      Wakeup(Nwrite);
      return Got(bytes);
    }

    /** pipeclose of one end. */
    method Close(writable: bool) returns (gone: bool)
      requires Valid()
      modifies this`readopen, this`writeopen, this`asleep
      ensures Valid() && gone == (!readopen && !writeopen) && (old(ReadersOk()) ==> ReadersOk())
      ensures if writable then !writeopen && readopen == old(readopen) else !readopen && writeopen == old(writeopen)
      ensures asleep == Woken(old(asleep), if writable then Nread else Nwrite)
    {
      if writable {
        writeopen := false;
        Wakeup(Nread);
      } else {
        readopen := false;
        Wakeup(Nwrite);
      }
      gone := !readopen && !writeopen;
    }
  }

  /** The lost wakeup: a killed writer of 513 bytes leaves the reader asleep before a full pipe. */
  method LostWakeup() returns (k: Ring)
    ensures fresh(k) && k.Valid() && |k.written| == k.taken + 512 && k.asleep == map[0 := Nread]
  {
    k := new Ring();
    var r := k.Read(0, 1, false);
    var w := k.Write(1, seq(513, _ => 0), 0, true);
  }
}
