/**
  bio.c: the buffer cache.  Buffers are numbered 0..n-1 and n stands for the list
  head.  Each method of Cache is what one process does in one go: under
  bcache.lock, or alone with a buffer whose sleep lock it holds.  Any number of
  processes call the methods in any order that their preconditions allow.
 */
module BufferCache {
  import opened Blocks
  import opened Options

  type Proc = nat

  datatype Key = Key(dev: nat, blockno: nat)

  datatype Buf = Buf(key: Key, valid: bool, dirty: bool, refcnt: nat, owner: Option<Proc>, data: Block)

  // A reference taken by bget and not yet dropped by brelse.
  datatype Ref = Ref(p: Proc, key: Key)

  // Every buffer starts with this key.
  const ZERO_KEY := Key(0, 0)

  /*** The MRU list ***/

  // Element i of the list with the head, n, at both ends.
  function At(order: seq<nat>, n: nat, i: int): nat {
    if 0 <= i < |order| then order[i] else n
  }

  ghost predicate LinkAt(next: seq<nat>, prev: seq<nat>, order: seq<nat>, n: nat, i: int) {
    && At(order, n, i) < |next| && At(order, n, i + 1) < |prev|
    && next[At(order, n, i)] == At(order, n, i + 1)
    && prev[At(order, n, i + 1)] == At(order, n, i)
  }

  // next and prev run through the buffers of order, which are in descending order of stamp.
  ghost predicate ListOk(next: seq<nat>, prev: seq<nat>, order: seq<nat>, stamp: seq<nat>, n: nat) {
    && |next| == n + 1 && |prev| == n + 1 && |stamp| == n
    && (forall i | 0 <= i < |order| :: order[i] < n)
    && (forall i, j | 0 <= i < j < |order| :: stamp[order[i]] > stamp[order[j]])
    && forall i {:trigger LinkAt(next, prev, order, n, i)} | -1 <= i < |order| :: LinkAt(next, prev, order, n, i)
  }

  lemma UnlinkLinks(next: seq<nat>, prev: seq<nat>, order: seq<nat>, stamp: seq<nat>, n: nat, k: nat)
    requires ListOk(next, prev, order, stamp, n) && k < |order|
    ensures next[order[k]] <= n && prev[order[k]] <= n
    ensures var b := order[k];
            ListOk(next[prev[b] := next[b]], prev[next[b] := prev[b]], order[..k] + order[k + 1..], stamp, n)
  {
    var b := order[k];
    assert LinkAt(next, prev, order, n, k - 1) && LinkAt(next, prev, order, n, k);
    var next1, prev1, order1 := next[prev[b] := next[b]], prev[next[b] := prev[b]], order[..k] + order[k + 1..];
    forall i | -1 <= i < |order1|
      ensures LinkAt(next1, prev1, order1, n, i)
    {
      assert LinkAt(next, prev, order, n, i) && LinkAt(next, prev, order, n, i + 1);
    }
  }

  lemma PushLinks(next: seq<nat>, prev: seq<nat>, order: seq<nat>, stamp: seq<nat>, n: nat, b: nat, s: nat)
    requires ListOk(next, prev, order, stamp, n) && b < n && b !in order
    requires forall i | 0 <= i < |order| :: stamp[order[i]] < s
    ensures next[n] <= n
    ensures ListOk(next[b := next[n]][n := b], prev[b := n][next[n] := b], [b] + order, stamp[b := s], n)
  {
    assert LinkAt(next, prev, order, n, -1);
    var next1, prev1, order1 := next[b := next[n]][n := b], prev[b := n][next[n] := b], [b] + order;
    forall i | -1 <= i < |order1|
      ensures LinkAt(next1, prev1, order1, n, i)
    {
      if i >= 1 {
        assert LinkAt(next, prev, order, n, i - 1);
      }
    }
  }

  /*** What the buffers hold ***/

  // Never used, or recycled and not yet claimed by anyone.
  predicate Untouched(b: Buf) {
    b.refcnt == 0 && !b.valid && !b.dirty
  }

  // The buffer holds contents that the disk may not have.
  predicate Ahead(b: Buf, unsaved: bool) {
    b.valid && (b.dirty || unsaved)
  }

  ghost predicate BufOk(b: Buf, refs: multiset<Ref>, unsaved: bool, disk: map<Key, Block>, latest: map<Key, Block>) {
    && b.refcnt == |refs|
    && (forall r | r in refs :: r.key == b.key)
    && (b.owner.Some? ==> Ref(b.owner.value, b.key) in refs)
    && (unsaved ==> b.owner.Some? && b.valid)
    && (b.dirty ==> b.valid)
    && (b.refcnt > 0 || b.valid ==> b.key in disk)
    && (b.valid ==> b.key in latest && b.data == latest[b.key])
    && (b.valid && !Ahead(b, unsaved) ==> disk[b.key] == b.data)
  }

  // Two buffers with one key: it is the initial key and the less recent buffer is untouched.
  ghost predicate KeysOk(bufs: seq<Buf>, stamp: seq<nat>)
    requires |bufs| == |stamp|
  {
    forall b, c | 0 <= b < |bufs| && 0 <= c < |bufs| && stamp[b] > stamp[c] && bufs[b].key == bufs[c].key ::
      bufs[c].key == ZERO_KEY && Untouched(bufs[c])
  }

  ghost predicate InBuffer(bufs: seq<Buf>, unsaved: seq<bool>, key: Key)
    requires |bufs| == |unsaved|
  {
    exists b :: 0 <= b < |bufs| && bufs[b].key == key && Ahead(bufs[b], unsaved[b])
  }

  // Whatever the disk does not have is in a buffer.
  ghost predicate DiskOk(bufs: seq<Buf>, unsaved: seq<bool>, disk: map<Key, Block>, latest: map<Key, Block>)
    requires |bufs| == |unsaved|
  {
    && disk.Keys == latest.Keys
    && forall key | key in disk :: disk[key] == latest[key] || InBuffer(bufs, unsaved, key)
  }

  ghost predicate ContentsOk(bufs: seq<Buf>, refs: seq<multiset<Ref>>, unsaved: seq<bool>, stamp: seq<nat>,
                             disk: map<Key, Block>, latest: map<Key, Block>)
  {
    && |bufs| == |refs| == |unsaved| == |stamp|
    && (forall b | 0 <= b < |bufs| :: BufOk(bufs[b], refs[b], unsaved[b], disk, latest))
    && (forall b, c | 0 <= b < c < |bufs| :: stamp[b] != stamp[c])
    && KeysOk(bufs, stamp)
    && DiskOk(bufs, unsaved, disk, latest)
  }

  // A buffer in use has its key to itself among the buffers in use.
  lemma UsedUnique(bufs: seq<Buf>, refs: seq<multiset<Ref>>, unsaved: seq<bool>, stamp: seq<nat>,
                   disk: map<Key, Block>, latest: map<Key, Block>, b: nat, c: nat)
    requires ContentsOk(bufs, refs, unsaved, stamp, disk, latest) && b < |bufs| && c < |bufs| && b != c
    requires bufs[b].key == bufs[c].key
    ensures bufs[b].key == ZERO_KEY
    ensures Untouched(bufs[b]) || Untouched(bufs[c])
  {
    assert stamp[b] > stamp[c] || stamp[c] > stamp[b];
  }

  // Contents may differ for one key only.
  ghost predicate SameElsewhere(m: map<Key, Block>, m1: map<Key, Block>, key: Key) {
    m1.Keys == m.Keys && forall k | k in m && k != key :: m1[k] == m[k]
  }

  lemma ChangeDisk(bufs: seq<Buf>, unsaved: seq<bool>, disk: map<Key, Block>, latest: map<Key, Block>,
                   b: nat, x: Buf, u: bool, disk1: map<Key, Block>, latest1: map<Key, Block>)
    requires b < |bufs| == |unsaved| && DiskOk(bufs, unsaved, disk, latest)
    requires x.key == bufs[b].key && SameElsewhere(disk, disk1, x.key) && SameElsewhere(latest, latest1, x.key)
    requires x.key in disk1 ==>
               disk1[x.key] == latest1[x.key] || Ahead(x, u)
               || (disk1 == disk && latest1 == latest && !Ahead(bufs[b], unsaved[b]))
    ensures DiskOk(bufs[b := x], unsaved[b := u], disk1, latest1)
  {
    var bufs1, unsaved1 := bufs[b := x], unsaved[b := u];
    forall key | key in disk1
      ensures disk1[key] == latest1[key] || InBuffer(bufs1, unsaved1, key)
    {
      if key == x.key && Ahead(x, u) {
        assert bufs1[b].key == key && Ahead(bufs1[b], unsaved1[b]);
      } else if disk1[key] != latest1[key] {
        var c :| 0 <= c < |bufs| && bufs[c].key == key && Ahead(bufs[c], unsaved[c]);
        assert bufs1[c].key == key && Ahead(bufs1[c], unsaved1[c]);
      }
    }
  }

  // One buffer changes and keeps its key.
  lemma ChangeContents(bufs: seq<Buf>, refs: seq<multiset<Ref>>, unsaved: seq<bool>, stamp: seq<nat>,
                       disk: map<Key, Block>, latest: map<Key, Block>,
                       b: nat, x: Buf, m: multiset<Ref>, u: bool, disk1: map<Key, Block>, latest1: map<Key, Block>)
    requires ContentsOk(bufs, refs, unsaved, stamp, disk, latest) && b < |bufs|
    requires x.key == bufs[b].key && SameElsewhere(disk, disk1, x.key) && SameElsewhere(latest, latest1, x.key)
    requires BufOk(x, m, u, disk1, latest1)
    requires Untouched(bufs[b]) ==> disk1 == disk && latest1 == latest
    requires Untouched(bufs[b]) && !Untouched(x) ==>
               forall c | 0 <= c < |bufs| && bufs[c].key == x.key :: stamp[c] <= stamp[b]
    requires x.key in disk1 ==>
               disk1[x.key] == latest1[x.key] || Ahead(x, u)
               || (disk1 == disk && latest1 == latest && !Ahead(bufs[b], unsaved[b]))
    ensures ContentsOk(bufs[b := x], refs[b := m], unsaved[b := u], stamp, disk1, latest1)
  {
    var bufs1, refs1, unsaved1 := bufs[b := x], refs[b := m], unsaved[b := u];
    forall c | 0 <= c < |bufs|
      ensures BufOk(bufs1[c], refs1[c], unsaved1[c], disk1, latest1)
    {
      assert BufOk(bufs[c], refs[c], unsaved[c], disk, latest);
      if c != b && bufs[c].key == x.key {
        UsedUnique(bufs, refs, unsaved, stamp, disk, latest, b, c);
      }
    }
    ChangeDisk(bufs, unsaved, disk, latest, b, x, u, disk1, latest1);
  }

  // A reference is added to the most recent buffer of its key.
  lemma HitContents(bufs: seq<Buf>, refs: seq<multiset<Ref>>, unsaved: seq<bool>, stamp: seq<nat>,
                    disk: map<Key, Block>, latest: map<Key, Block>, b: nat, r: Ref)
    requires ContentsOk(bufs, refs, unsaved, stamp, disk, latest) && b < |bufs|
    requires bufs[b].key == r.key && r.key in disk
    requires forall c | 0 <= c < |bufs| && bufs[c].key == r.key :: stamp[c] <= stamp[b]
    ensures ContentsOk(bufs[b := bufs[b].(refcnt := bufs[b].refcnt + 1)], refs[b := refs[b] + multiset{r}], unsaved,
                       stamp, disk, latest)
  {
    assert BufOk(bufs[b], refs[b], unsaved[b], disk, latest);
    assert unsaved[b := unsaved[b]] == unsaved;
    ChangeContents(bufs, refs, unsaved, stamp, disk, latest, b, bufs[b].(refcnt := bufs[b].refcnt + 1),
                   refs[b] + multiset{r}, unsaved[b], disk, latest);
  }

  // An idle buffer takes a key that no buffer has.
  lemma RecycleContents(bufs: seq<Buf>, refs: seq<multiset<Ref>>, unsaved: seq<bool>, stamp: seq<nat>,
                        disk: map<Key, Block>, latest: map<Key, Block>, b: nat, r: Ref)
    requires ContentsOk(bufs, refs, unsaved, stamp, disk, latest) && b < |bufs|
    requires bufs[b].refcnt == 0 && !bufs[b].dirty && r.key in disk
    requires forall c | 0 <= c < |bufs| :: bufs[c].key != r.key
    ensures refs[b] == multiset{}
    ensures ContentsOk(bufs[b := bufs[b].(key := r.key, valid := false, refcnt := 1)], refs[b := multiset{r}], unsaved,
                       stamp, disk, latest)
  {
    var bufs1 := bufs[b := bufs[b].(key := r.key, valid := false, refcnt := 1)];
    assert BufOk(bufs[b], refs[b], unsaved[b], disk, latest);
    forall key | key in disk
      ensures disk[key] == latest[key] || InBuffer(bufs1, unsaved, key)
    {
      if disk[key] != latest[key] {
        var c :| 0 <= c < |bufs| && bufs[c].key == key && Ahead(bufs[c], unsaved[c]);
        assert bufs1[c].key == key && Ahead(bufs1[c], unsaved[c]);
      }
    }
  }

  // A buffer in use becomes the most recent.
  lemma StampContents(bufs: seq<Buf>, refs: seq<multiset<Ref>>, unsaved: seq<bool>, stamp: seq<nat>,
                      disk: map<Key, Block>, latest: map<Key, Block>, b: nat, s: nat)
    requires ContentsOk(bufs, refs, unsaved, stamp, disk, latest) && b < |bufs|
    requires !Untouched(bufs[b]) && forall c | 0 <= c < |bufs| :: stamp[c] < s
    ensures ContentsOk(bufs, refs, unsaved, stamp[b := s], disk, latest)
  {
    forall c | 0 <= c < |bufs| && c != b && bufs[c].key == bufs[b].key
      ensures bufs[c].key == ZERO_KEY && Untouched(bufs[c])
    {
      UsedUnique(bufs, refs, unsaved, stamp, disk, latest, b, c);
    }
  }

  // A reference goes; with the last one the buffer becomes the most recent.
  lemma DropContents(bufs: seq<Buf>, refs: seq<multiset<Ref>>, unsaved: seq<bool>, stamp: seq<nat>,
                     disk: map<Key, Block>, latest: map<Key, Block>, b: nat, r: Ref, s: nat)
    requires ContentsOk(bufs, refs, unsaved, stamp, disk, latest) && b < |bufs|
    requires forall c | 0 <= c < |bufs| :: stamp[c] < s
    requires r in refs[b] && bufs[b].owner != Some(r.p)
    ensures bufs[b].refcnt > 0
    ensures var x := bufs[b].(refcnt := bufs[b].refcnt - 1);
            ContentsOk(bufs[b := x], refs[b := refs[b] - multiset{r}], unsaved,
                       if x.refcnt == 0 then stamp[b := s] else stamp, disk, latest)
  {
    assert BufOk(bufs[b], refs[b], unsaved[b], disk, latest);
    var m := refs[b] - multiset{r};
    assert |m| == |refs[b]| - 1;
    var x := bufs[b].(refcnt := bufs[b].refcnt - 1);
    assert unsaved[b := unsaved[b]] == unsaved;
    if x.refcnt == 0 {
      StampContents(bufs, refs, unsaved, stamp, disk, latest, b, s);
      ChangeContents(bufs, refs, unsaved, stamp[b := s], disk, latest, b, x, m, unsaved[b], disk, latest);
    } else {
      ChangeContents(bufs, refs, unsaved, stamp, disk, latest, b, x, m, unsaved[b], disk, latest);
    }
  }

  lemma FrontComplete(order: seq<nat>, k: nat)
    requires k < |order|
    ensures forall c | c in order :: c in [order[k]] + (order[..k] + order[k + 1..])
  {
    forall c | c in order
      ensures c in [order[k]] + (order[..k] + order[k + 1..])
    {
      var i :| 0 <= i < |order| && order[i] == c;
      assert i != k ==> c == ([order[k]] + (order[..k] + order[k + 1..]))[if i < k then i + 1 else i];
    }
  }

  // A block whose buffer is claimed but not read yet is on disk in its latest form.
  lemma DiskCurrent(bufs: seq<Buf>, refs: seq<multiset<Ref>>, unsaved: seq<bool>, stamp: seq<nat>,
                    disk: map<Key, Block>, latest: map<Key, Block>, b: nat)
    requires ContentsOk(bufs, refs, unsaved, stamp, disk, latest) && b < |bufs|
    requires bufs[b].refcnt > 0 && !bufs[b].valid
    ensures bufs[b].key in disk && disk[bufs[b].key] == latest[bufs[b].key]
  {
    assert BufOk(bufs[b], refs[b], unsaved[b], disk, latest);
    if InBuffer(bufs, unsaved, bufs[b].key) {
      var c :| 0 <= c < |bufs| && bufs[c].key == bufs[b].key && Ahead(bufs[c], unsaved[c]);
      UsedUnique(bufs, refs, unsaved, stamp, disk, latest, b, c);
    }
  }

  lemma ReadContents(bufs: seq<Buf>, refs: seq<multiset<Ref>>, unsaved: seq<bool>, stamp: seq<nat>,
                     disk: map<Key, Block>, latest: map<Key, Block>, b: nat)
    requires ContentsOk(bufs, refs, unsaved, stamp, disk, latest) && b < |bufs|
    requires bufs[b].refcnt > 0 && !bufs[b].valid
    ensures bufs[b].key in disk && disk[bufs[b].key] == latest[bufs[b].key]
    ensures ContentsOk(bufs[b := bufs[b].(valid := true, dirty := false, data := disk[bufs[b].key])], refs, unsaved,
                       stamp, disk, latest)
  {
    assert BufOk(bufs[b], refs[b], unsaved[b], disk, latest);
    DiskCurrent(bufs, refs, unsaved, stamp, disk, latest, b);
    var x := bufs[b].(valid := true, dirty := false, data := disk[bufs[b].key]);
    ChangeContents(bufs, refs, unsaved, stamp, disk, latest, b, x, refs[b], unsaved[b], disk, latest);
    assert unsaved[b := unsaved[b]] == unsaved && refs[b := refs[b]] == refs;
  }

  lemma WriteContents(bufs: seq<Buf>, refs: seq<multiset<Ref>>, unsaved: seq<bool>, stamp: seq<nat>,
                      disk: map<Key, Block>, latest: map<Key, Block>, b: nat)
    requires ContentsOk(bufs, refs, unsaved, stamp, disk, latest) && b < |bufs|
    requires bufs[b].dirty && !unsaved[b]
    ensures bufs[b].key in disk
    ensures ContentsOk(bufs[b := bufs[b].(valid := true, dirty := false)], refs, unsaved, stamp,
                       disk[bufs[b].key := bufs[b].data], latest)
  {
    assert BufOk(bufs[b], refs[b], unsaved[b], disk, latest);
    var x := bufs[b].(valid := true, dirty := false);
    ChangeContents(bufs, refs, unsaved, stamp, disk, latest, b, x, refs[b], unsaved[b], disk[x.key := x.data], latest);
    assert unsaved[b := unsaved[b]] == unsaved && refs[b := refs[b]] == refs;
  }

  /*** The cache ***/

  class Cache {
    const n: nat
    var bufs: seq<Buf>
    var next: seq<nat>
    var prev: seq<nat>
    var disk: map<Key, Block>
    ghost var order: seq<nat>              // the list, most recent first
    ghost var stamp: seq<nat>              // when each buffer last became idle
    ghost var clock: nat
    ghost var refs: seq<multiset<Ref>>     // who has a reference
    ghost var unsaved: seq<bool>           // changed since the last bwrite or log_write
    ghost var latest: map<Key, Block>      // what was last stored in each block, by anyone

    // The list holds every buffer, most recently released first.
    ghost predicate ListValid()
      reads this`next, this`prev, this`order, this`stamp, this`clock
    {
      && ListOk(next, prev, order, stamp, n)
      && (forall c: nat | c < n :: c in order)
      && (forall c | 0 <= c < n :: stamp[c] < clock)
    }

    ghost predicate Valid()
      reads this
    {
      |bufs| == n && ListValid() && ContentsOk(bufs, refs, unsaved, stamp, disk, latest)
    }

    // b->next = head.next; b->prev = head; head.next->prev = b; head.next = b.
    method PushFront(b: nat)
      requires ListOk(next, prev, order, stamp, n) && b < n && b !in order
      requires forall c | 0 <= c < n && c in order :: stamp[c] < clock
      modifies this`next, this`prev, this`order, this`stamp, this`clock
      ensures ListOk(next, prev, order, stamp, n)
      ensures order == [b] + old(order) && stamp == old(stamp)[b := old(clock)] && clock == old(clock) + 1
    {
      PushLinks(next, prev, order, stamp, n, b, clock);
      var first := next[n];
      next, prev := next[b := first], prev[b := n];
      prev := prev[first := b];
      next := next[n := b];
      order, stamp, clock := [b] + order, stamp[b := clock], clock + 1;
    }

    /** binit: an empty list to which each buffer is pushed. */
    constructor (n: nat, disk: map<Key, Block>)
      ensures Valid() && this.n == n && this.disk == disk && latest == disk
      ensures forall b | 0 <= b < n :: refs[b] == multiset{} && Untouched(bufs[b])
    {
      this.n := n;
      this.disk, latest := disk, disk;
      bufs := seq(n, _ => Buf(ZERO_KEY, false, false, 0, None, ZERO_BLOCK));
      refs, unsaved := seq(n, _ => multiset{}), seq(n, _ => false);
      next, prev := seq(n + 1, _ => n), seq(n + 1, _ => n);
      order, stamp, clock := [], seq(n, i => i), 0;
      new;
      var b := 0;
      assert LinkAt(next, prev, order, n, -1);
      while b < n
        invariant b <= n && clock == b && |stamp| == n && (forall c | 0 <= c < n :: stamp[c] == c)
        invariant ListOk(next, prev, order, stamp, n)
        invariant forall c :: c in order <==> 0 <= c < b
        invariant bufs == seq(n, _ => Buf(ZERO_KEY, false, false, 0, None, ZERO_BLOCK)) && this.disk == latest == disk
        invariant refs == seq(n, _ => multiset{}) && unsaved == seq(n, _ => false)
      {
        PushFront(b);
        b := b + 1;
      }
    }

    // bget's first loop: the most recent buffer with the key.
    method FindCached(key: Key) returns (b: nat)
      requires |bufs| == n && ListValid()
      ensures b <= n
      ensures b == n ==> forall c | 0 <= c < n :: bufs[c].key != key
      ensures b < n ==> bufs[b].key == key && forall c | 0 <= c < n && bufs[c].key == key :: stamp[c] <= stamp[b]
    {
      assert LinkAt(next, prev, order, n, -1);
      b := next[n];
      ghost var i: nat := 0;
      while b != n && bufs[b].key != key
        invariant i <= |order| && b == At(order, n, i)
        invariant forall j | 0 <= j < i :: bufs[order[j]].key != key
        decreases |order| - i
      {
        assert LinkAt(next, prev, order, n, i);
        b, i := next[b], i + 1;
      }
      forall c | 0 <= c < n && bufs[c].key == key
        ensures b < n && stamp[c] <= stamp[b]
      {
        assert c in order;
        var k :| 0 <= k < |order| && order[k] == c;
      }
    }

    // bget's second loop: the least recent buffer that is neither referenced nor pinned.
    method FindIdle() returns (b: nat)
      requires |bufs| == n && ListValid()
      ensures b <= n
      ensures b == n ==> forall c | 0 <= c < n :: bufs[c].refcnt > 0 || bufs[c].dirty
      ensures b < n ==> bufs[b].refcnt == 0 && !bufs[b].dirty
      ensures b < n ==> forall c | 0 <= c < n && bufs[c].refcnt == 0 && !bufs[c].dirty :: stamp[b] <= stamp[c]
    {
      assert LinkAt(next, prev, order, n, |order| - 1);
      b := prev[n];
      ghost var i := |order| - 1;
      while b != n && !(bufs[b].refcnt == 0 && !bufs[b].dirty)
        invariant -1 <= i < |order| && b == At(order, n, i)
        invariant forall j | i < j < |order| :: bufs[order[j]].refcnt > 0 || bufs[order[j]].dirty
        decreases i
      {
        assert LinkAt(next, prev, order, n, i - 1);
        b, i := prev[b], i - 1;
      }
      forall c | 0 <= c < n && bufs[c].refcnt == 0 && !bufs[c].dirty
        ensures b < n && stamp[b] <= stamp[c]
      {
        assert c in order;
        var k :| 0 <= k < |order| && order[k] == c;
      }
    }

    /** The part of bget under bcache.lock; None is the panic. */
    method Bget(p: Proc, key: Key) returns (r: Option<nat>)
      requires Valid() && key in disk
      modifies this`bufs, this`refs
      ensures Valid()
      ensures r.None? ==>
                && bufs == old(bufs) && refs == old(refs)
                && forall c | 0 <= c < n :: bufs[c].key != key && (bufs[c].refcnt > 0 || bufs[c].dirty)
      ensures r.Some? ==>
                && r.value < n && bufs[r.value].key == key
                && bufs == old(bufs)[r.value := bufs[r.value]]
                && refs == old(refs)[r.value := old(refs)[r.value] + multiset{Ref(p, key)}]
      // A hit only counts the reference.
      ensures r.Some? && old(bufs)[r.value].key == key ==>
                bufs[r.value] == old(bufs)[r.value].(refcnt := old(bufs)[r.value].refcnt + 1)
      // A miss empties the least recently released buffer that is idle and not pinned.
      ensures r.Some? && old(bufs)[r.value].key != key ==>
                && !bufs[r.value].valid && !bufs[r.value].dirty && old(refs)[r.value] == multiset{}
                && (forall c | 0 <= c < n :: old(bufs)[c].key != key)
                && old(bufs)[r.value].refcnt == 0 && !old(bufs)[r.value].dirty
                && forall c | 0 <= c < n && old(bufs)[c].refcnt == 0 && !old(bufs)[c].dirty ::
                     stamp[r.value] <= stamp[c]
    {
      var b := FindCached(key);
      if b != n {
        HitContents(bufs, refs, unsaved, stamp, disk, latest, b, Ref(p, key));
        bufs, refs := bufs[b := bufs[b].(refcnt := bufs[b].refcnt + 1)], refs[b := refs[b] + multiset{Ref(p, key)}];
        return Some(b);
      }
      b := FindIdle();
      if b == n {
        return None;
      }
      RecycleContents(bufs, refs, unsaved, stamp, disk, latest, b, Ref(p, key));
      assert refs[b] + multiset{Ref(p, key)} == multiset{Ref(p, key)};
      bufs := bufs[b := bufs[b].(key := key, valid := false, dirty := false, refcnt := 1)];
      refs := refs[b := multiset{Ref(p, key)}];
      return Some(b);
    }

    // acquiresleep on the buffer, when it gets the lock.
    method Lock(p: Proc, key: Key, b: nat)
      requires Valid() && b < n && Ref(p, key) in refs[b] && bufs[b].owner.None?
      modifies this`bufs
      ensures Valid() && bufs == old(bufs)[b := old(bufs)[b].(owner := Some(p))]
    {
      var x := bufs[b].(owner := Some(p));
      assert BufOk(bufs[b], refs[b], unsaved[b], disk, latest);
      ChangeContents(bufs, refs, unsaved, stamp, disk, latest, b, x, refs[b], unsaved[b], disk, latest);
      assert unsaved[b := unsaved[b]] == unsaved && refs[b := refs[b]] == refs;
      bufs := bufs[b := x];
    }

    // The driver: write a dirty buffer, else read.
    method Iderw(p: Proc, b: nat)
      requires Valid() && b < n && bufs[b].owner == Some(p)
      requires bufs[b].valid ==> bufs[b].dirty && !unsaved[b]
      modifies this`bufs, this`disk
      ensures Valid() && bufs[b].valid && !bufs[b].dirty && bufs[b].data == latest[bufs[b].key]
      ensures bufs == old(bufs)[b := old(bufs)[b].(valid := true, dirty := false, data := bufs[b].data)]
      ensures bufs[b].key in disk && disk == old(disk)[bufs[b].key := bufs[b].data]
      ensures old(bufs)[b].dirty ==> bufs[b].data == old(bufs)[b].data
    {
      assert BufOk(bufs[b], refs[b], unsaved[b], disk, latest);
      if bufs[b].dirty {
        WriteContents(bufs, refs, unsaved, stamp, disk, latest, b);
        disk := disk[bufs[b].key := bufs[b].data];
        bufs := bufs[b := bufs[b].(valid := true, dirty := false)];
      } else {
        ReadContents(bufs, refs, unsaved, stamp, disk, latest, b);
        bufs := bufs[b := bufs[b].(valid := true, dirty := false, data := disk[bufs[b].key])];
      }
    }

    /** The rest of bread: the buffer holds what was last stored in the block, by anyone. */
    method Bread(p: Proc, key: Key, b: nat)
      requires Valid() && b < n && Ref(p, key) in refs[b] && bufs[b].owner == Some(p)
      modifies this`bufs, this`disk
      ensures Valid() && disk == old(disk)
      ensures bufs[b].key == key && bufs[b].valid && key in latest && bufs[b].data == latest[key]
      ensures bufs == old(bufs)[b := old(bufs)[b].(valid := true, data := latest[key])]
    {
      assert BufOk(bufs[b], refs[b], unsaved[b], disk, latest);
      if !bufs[b].valid {
        DiskCurrent(bufs, refs, unsaved, stamp, disk, latest, b);
        Iderw(p, b);
      }
    }

    // The client changes the data of a buffer that it has read and locked.
    method Store(p: Proc, b: nat, data: Block)
      requires Valid() && b < n && bufs[b].owner == Some(p) && bufs[b].valid
      modifies this`bufs, this`unsaved, this`latest
      ensures Valid() && bufs == old(bufs)[b := old(bufs)[b].(data := data)]
      ensures unsaved == old(unsaved)[b := true] && latest == old(latest)[bufs[b].key := data]
    {
      assert BufOk(bufs[b], refs[b], unsaved[b], disk, latest);
      var x := bufs[b].(data := data);
      ghost var latest1 := latest[x.key := data];
      ChangeContents(bufs, refs, unsaved, stamp, disk, latest, b, x, refs[b], true, disk, latest1);
      assert refs[b := refs[b]] == refs;
      bufs, unsaved, latest := bufs[b := x], unsaved[b := true], latest1;
    }

    /** log_write's pin: the buffer stays until its block is written. */
    method Pin(p: Proc, b: nat)
      requires Valid() && b < n && bufs[b].owner == Some(p) && bufs[b].valid
      modifies this`bufs, this`unsaved
      ensures Valid() && bufs == old(bufs)[b := old(bufs)[b].(dirty := true)] && unsaved == old(unsaved)[b := false]
    {
      assert BufOk(bufs[b], refs[b], unsaved[b], disk, latest);
      var x := bufs[b].(dirty := true);
      ChangeContents(bufs, refs, unsaved, stamp, disk, latest, b, x, refs[b], false, disk, latest);
      assert refs[b := refs[b]] == refs;
      bufs, unsaved := bufs[b := x], unsaved[b := false];
    }

    /** bwrite: the block on disk is the latest, and the buffer is no longer pinned. */
    method Bwrite(p: Proc, b: nat)
      requires Valid() && b < n && bufs[b].owner == Some(p) && bufs[b].valid
      modifies this`bufs, this`unsaved, this`disk
      ensures Valid() && bufs == old(bufs)[b := old(bufs)[b].(dirty := false)] && unsaved == old(unsaved)[b := false]
      ensures disk == old(disk)[bufs[b].key := bufs[b].data]
      ensures bufs[b].key in latest && disk[bufs[b].key] == latest[bufs[b].key]
    {
      Pin(p, b);
      Iderw(p, b);
    }

    // releasesleep, with every change followed by bwrite or log_write.
    method Unlock(p: Proc, b: nat)
      requires Valid() && b < n && bufs[b].owner == Some(p) && !unsaved[b]
      modifies this`bufs
      ensures Valid() && bufs == old(bufs)[b := old(bufs)[b].(owner := None)]
    {
      assert BufOk(bufs[b], refs[b], unsaved[b], disk, latest);
      var x := bufs[b].(owner := None);
      ChangeContents(bufs, refs, unsaved, stamp, disk, latest, b, x, refs[b], unsaved[b], disk, latest);
      assert unsaved[b := unsaved[b]] == unsaved && refs[b := refs[b]] == refs;
      bufs := bufs[b := x];
    }

    // Take the buffer out of the list and put it in front.
    method MoveToFront(b: nat)
      requires ListValid() && b < n
      modifies this`next, this`prev, this`order, this`stamp, this`clock
      ensures ListValid() && stamp == old(stamp)[b := old(clock)] && [b] <= order
    {
      assert b in order;
      ghost var k :| 0 <= k < |order| && order[k] == b;
      UnlinkLinks(next, prev, order, stamp, n, k);
      FrontComplete(order, k);
      next, prev := next[prev[b] := next[b]], prev[next[b] := prev[b]];
      order := order[..k] + order[k + 1..];
      PushFront(b);
      forall c: nat | c < n
        ensures c in order
      {
        assert c in old(order);
        assert order == [old(order)[k]] + (old(order)[..k] + old(order)[k + 1..]);
      }
    }

    // b->refcnt--
    method DropRef(p: Proc, key: Key, b: nat)
      requires Valid() && b < n && Ref(p, key) in refs[b] && bufs[b].owner != Some(p)
      modifies this`bufs, this`refs
      ensures |bufs| == n && refs == old(refs)[b := old(refs)[b] - multiset{Ref(p, key)}]
      ensures bufs == old(bufs)[b := old(bufs)[b].(refcnt := old(bufs)[b].refcnt - 1)]
      ensures ContentsOk(bufs, refs, unsaved, if bufs[b].refcnt == 0 then stamp[b := clock] else stamp, disk, latest)
    {
      DropContents(bufs, refs, unsaved, stamp, disk, latest, b, Ref(p, key), clock);
      bufs, refs := bufs[b := bufs[b].(refcnt := bufs[b].refcnt - 1)], refs[b := refs[b] - multiset{Ref(p, key)}];
    }

    /** The part of brelse under bcache.lock: an idle buffer becomes the most recent. */
    method Drop(p: Proc, key: Key, b: nat)
      requires Valid() && b < n && Ref(p, key) in refs[b] && bufs[b].owner != Some(p)
      modifies this`bufs, this`refs, this`next, this`prev, this`order, this`stamp, this`clock
      ensures Valid() && refs == old(refs)[b := old(refs)[b] - multiset{Ref(p, key)}]
      ensures bufs == old(bufs)[b := old(bufs)[b].(refcnt := old(bufs)[b].refcnt - 1)]
      ensures if bufs[b].refcnt == 0 then stamp == old(stamp)[b := old(clock)] && [b] <= order
              else stamp == old(stamp) && order == old(order)
    {
      DropRef(p, key, b);
      if bufs[b].refcnt == 0 {
        MoveToFront(b);
      }
    }
  }
}
