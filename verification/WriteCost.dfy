/** Which blocks a writei call allocates and logs, and how many they can be. */
module WriteCost {
  import opened Blocks
  import opened BlockMap
  import opened Sums

  // Address of file block x.
  function Addr(ip: Inode, blocks: Store, x: nat): (a: int)
    requires x < MAXFILE && |ip.addrs| == NDIRECT + 1
  {
    SlotVal(ip, blocks, DataSlot(x))
  }

  function Ind(ip: Inode): (a: int)
    requires |ip.addrs| == NDIRECT + 1
  {
    ip.addrs[NDIRECT]
  }

  function Map1(sb: Superblock, b: int): (m: int) {
    if b >= 0 then sb.Bblock(b) else 0
  }

  /*** One bmap call ***/

  // What bmap does to one inode: file block bn gets address a, and the other addresses stay.
  ghost predicate Bmapped(ip: Inode, blocks: Store, ip': Inode, blocks': Store, bn: nat, a: int)
    requires bn < MAXFILE
  {
    && |ip.addrs| == |ip'.addrs| == NDIRECT + 1
    && a == Addr(ip', blocks', bn) != 0
    && (forall s: nat | s < NSLOTS && s != NDIRECT && s != DataSlot(bn) ::
          SlotVal(ip', blocks', s) == SlotVal(ip, blocks, s))
    && (Addr(ip, blocks, bn) != 0 ==> Addr(ip, blocks, bn) == a)
    && (bn < NDIRECT || Ind(ip) != 0 || Addr(ip, blocks, bn) != 0 ==> Ind(ip') == Ind(ip))
    && (NDIRECT <= bn ==> Ind(ip') != 0)
  }

  // Blocks it allocates: the data block, and the indirect block when there was none.
  function MapAdds(ip: Inode, blocks: Store, ip': Inode, bn: nat, a: int): (r: set<int>)
    requires bn < MAXFILE && |ip.addrs| == |ip'.addrs| == NDIRECT + 1
  {
    if Addr(ip, blocks, bn) != 0 then {} else if Ind(ip') == Ind(ip) then {a} else {a, Ind(ip')}
  }

  // Blocks it logs: those, their bitmap blocks, and the indirect block it enters the address in.
  function MapLogs(sb: Superblock, ip: Inode, blocks: Store, ip': Inode, bn: nat, a: int): (r: set<int>)
    requires bn < MAXFILE && |ip.addrs| == |ip'.addrs| == NDIRECT + 1
  {
    if Addr(ip, blocks, bn) != 0 then {}
    else if bn < NDIRECT then {a, Map1(sb, a)}
    else if Ind(ip') == Ind(ip) then {a, Map1(sb, a), Ind(ip')}
    else {a, Map1(sb, a), Ind(ip'), Map1(sb, Ind(ip'))}
  }

  // The block that balloc hands out.
  ghost predicate FirstFree(sb: Superblock, owned: set<int>, b: int) {
    sb.datastart <= b < sb.size && b !in owned && forall c | sb.datastart <= c < b :: c in owned
  }

  // The blocks bmap allocates are those that balloc hands out, an indirect block before the data block.
  ghost predicate Allots(sb: Superblock, ip: Inode, blocks: Store, owned: set<int>, ip': Inode, bn: nat, a: int)
    requires bn < MAXFILE && |ip.addrs| == |ip'.addrs| == NDIRECT + 1
  {
    Addr(ip, blocks, bn) == 0 ==>
      if Ind(ip') == Ind(ip) then FirstFree(sb, owned, a)
      else FirstFree(sb, owned, Ind(ip')) && FirstFree(sb, owned + {Ind(ip')}, a)
  }

  // Every block that changed is logged.
  ghost predicate OnlyLogged(blocks: Store, blocks': Store, logged: set<int>) {
    forall b | b in blocks && b !in logged :: b in blocks' && blocks'[b] == blocks[b]
  }

  /*** A run of bmap calls over file blocks lo..hi ***/

  // Disk blocks of file blocks lo..hi.
  function Touched(ip: Inode, blocks: Store, lo: nat, hi: nat): (r: set<int>)
    requires hi <= MAXFILE && |ip.addrs| == NDIRECT + 1
  {
    if hi <= lo then {} else Touched(ip, blocks, lo, hi - 1) + {Addr(ip, blocks, hi - 1)}
  }

  // Those that were not mapped before, and their bitmap blocks.
  function TouchedNew(ip0: Inode, blocks0: Store, ip: Inode, blocks: Store, lo: nat, hi: nat): (r: set<int>)
    requires hi <= MAXFILE && |ip0.addrs| == |ip.addrs| == NDIRECT + 1
  {
    if hi <= lo then {}
    else TouchedNew(ip0, blocks0, ip, blocks, lo, hi - 1)
         + if Addr(ip0, blocks0, hi - 1) == 0 then {Addr(ip, blocks, hi - 1)} else {}
  }

  function Maps(sb: Superblock, ip0: Inode, blocks0: Store, ip: Inode, blocks: Store, lo: nat, hi: nat): (r: set<int>)
    requires hi <= MAXFILE && |ip0.addrs| == |ip.addrs| == NDIRECT + 1
  {
    if hi <= lo then {}
    else if Addr(ip0, blocks0, hi - 1) != 0 then Maps(sb, ip0, blocks0, ip, blocks, lo, hi - 1)
    else Maps(sb, ip0, blocks0, ip, blocks, lo, hi - 1) + {Map1(sb, Addr(ip, blocks, hi - 1))}
  }

  // Some file block of lo..hi needs a new entry in the indirect block.
  predicate NewEntry(ip0: Inode, blocks0: Store, lo: nat, hi: nat)
    requires hi <= MAXFILE && |ip0.addrs| == NDIRECT + 1
  {
    lo < hi && ((NDIRECT <= hi - 1 && Addr(ip0, blocks0, hi - 1) == 0) || NewEntry(ip0, blocks0, lo, hi - 1))
  }

  // All blocks allocated, and all blocks logged, while file blocks lo..hi are written.
  function Added(ip0: Inode, blocks0: Store, ip: Inode, blocks: Store, lo: nat, hi: nat): (r: set<int>)
    requires hi <= MAXFILE && |ip0.addrs| == |ip.addrs| == NDIRECT + 1
  {
    TouchedNew(ip0, blocks0, ip, blocks, lo, hi) + if Ind(ip) == Ind(ip0) then {} else {Ind(ip)}
  }

  function Logs(sb: Superblock, ip0: Inode, blocks0: Store, ip: Inode, blocks: Store, lo: nat, hi: nat): (r: set<int>)
    requires hi <= MAXFILE && |ip0.addrs| == |ip.addrs| == NDIRECT + 1
  {
    Touched(ip, blocks, lo, hi) + Maps(sb, ip0, blocks0, ip, blocks, lo, hi)
    + EntryLog(ip0, blocks0, ip, lo, hi) + IndMap(sb, ip0, ip)
  }

  // The indirect block, if it got an entry, and the bitmap block of a new indirect block.
  function EntryLog(ip0: Inode, blocks0: Store, ip: Inode, lo: nat, hi: nat): (r: set<int>)
    requires hi <= MAXFILE && |ip0.addrs| == |ip.addrs| == NDIRECT + 1
  {
    if NewEntry(ip0, blocks0, lo, hi) then {Ind(ip)} else {}
  }

  function IndMap(sb: Superblock, ip0: Inode, ip: Inode): (r: set<int>)
    requires |ip0.addrs| == |ip.addrs| == NDIRECT + 1
  {
    if Ind(ip) == Ind(ip0) then {} else {Map1(sb, Ind(ip))}
  }

  lemma {:induction false} SameAddrs(sb: Superblock, ip0: Inode, blocks0: Store, ip: Inode, blocks: Store, ip': Inode,
                                     blocks': Store, lo: nat, hi: nat)
    requires hi <= MAXFILE && |ip0.addrs| == |ip.addrs| == |ip'.addrs| == NDIRECT + 1
    requires forall x: nat | lo <= x < hi :: Addr(ip', blocks', x) == Addr(ip, blocks, x)
    ensures Touched(ip', blocks', lo, hi) == Touched(ip, blocks, lo, hi)
    ensures TouchedNew(ip0, blocks0, ip', blocks', lo, hi) == TouchedNew(ip0, blocks0, ip, blocks, lo, hi)
    ensures Maps(sb, ip0, blocks0, ip', blocks', lo, hi) == Maps(sb, ip0, blocks0, ip, blocks, lo, hi)
  {
    if lo < hi {
      SameAddrs(sb, ip0, blocks0, ip, blocks, ip', blocks', lo, hi - 1);
    }
  }

  /*** Accounting for a writei that has written file blocks lo..hi ***/

  ghost predicate Accounted(sb: Superblock, ip0: Inode, blocks0: Store, ip: Inode, blocks: Store, owned0: set<int>,
                            owned: set<int>, logged0: set<int>, logged: set<int>, lo: nat, hi: nat)
  {
    && |ip0.addrs| == |ip.addrs| == NDIRECT + 1 && lo <= hi <= MAXFILE
    && (forall x: nat | x < MAXFILE && !(lo <= x < hi) :: Addr(ip, blocks, x) == Addr(ip0, blocks0, x))
    && (Ind(ip) != Ind(ip0) ==> Ind(ip0) == 0 && NewEntry(ip0, blocks0, lo, hi))
    && (NewEntry(ip0, blocks0, lo, hi) ==> Ind(ip) != 0)
    && owned == owned0 + Added(ip0, blocks0, ip, blocks, lo, hi)
    && logged == logged0 + Logs(sb, ip0, blocks0, ip, blocks, lo, hi)
  }

  // One more block, whether bmap found it or made it.
  lemma AddedGrows(sb: Superblock, ip0: Inode, blocks0: Store, ip: Inode, blocks: Store, ip': Inode, blocks': Store,
                   lo: nat, hi: nat, a: int)
    requires lo <= hi < MAXFILE && |ip0.addrs| == |ip.addrs| == |ip'.addrs| == NDIRECT + 1
    requires forall x: nat | x < MAXFILE && x != hi :: Addr(ip', blocks', x) == Addr(ip, blocks, x)
    requires Addr(ip0, blocks0, hi) == Addr(ip, blocks, hi) && a == Addr(ip', blocks', hi)
    requires Ind(ip') == Ind(ip)
             || (Ind(ip) == Ind(ip0) && NDIRECT <= hi && Addr(ip, blocks, hi) == 0 && !NewEntry(ip0, blocks0, lo, hi))
    ensures Added(ip0, blocks0, ip', blocks', lo, hi + 1)
            == Added(ip0, blocks0, ip, blocks, lo, hi) + MapAdds(ip, blocks, ip', hi, a)
  {
    SameAddrs(sb, ip0, blocks0, ip, blocks, ip', blocks', lo, hi);
  }

  lemma MapLogsParts(sb: Superblock, ip: Inode, blocks: Store, ip': Inode, bn: nat, a: int, x: set<int>, e: set<int>,
                     f: set<int>)
    requires bn < MAXFILE && |ip.addrs| == |ip'.addrs| == NDIRECT + 1
    requires Ind(ip') == Ind(ip) || (NDIRECT <= bn && Addr(ip, blocks, bn) == 0)
    requires x == if Addr(ip, blocks, bn) == 0 then {Map1(sb, a)} else {}
    requires e == if Addr(ip, blocks, bn) == 0 && NDIRECT <= bn then {Ind(ip')} else {}
    requires f == if Ind(ip') == Ind(ip) then {} else {Map1(sb, Ind(ip'))}
    ensures MapLogs(sb, ip, blocks, ip', bn, a) + {a} == x + e + f + {a}
  {
  }

  lemma EntryLogGrows(sb: Superblock, ip0: Inode, blocks0: Store, ip: Inode, blocks: Store, ip': Inode,
                      lo: nat, hi: nat, e: set<int>, f: set<int>)
    requires lo <= hi < MAXFILE && |ip0.addrs| == |ip.addrs| == |ip'.addrs| == NDIRECT + 1
    requires Addr(ip0, blocks0, hi) == Addr(ip, blocks, hi)
    requires Ind(ip') == Ind(ip)
             || (Ind(ip) == Ind(ip0) && NDIRECT <= hi && Addr(ip, blocks, hi) == 0 && !NewEntry(ip0, blocks0, lo, hi))
    requires e == if Addr(ip, blocks, hi) == 0 && NDIRECT <= hi then {Ind(ip')} else {}
    requires f == if Ind(ip') == Ind(ip) then {} else {Map1(sb, Ind(ip'))}
    ensures EntryLog(ip0, blocks0, ip', lo, hi + 1) == EntryLog(ip0, blocks0, ip, lo, hi) + e
    ensures IndMap(sb, ip0, ip') == IndMap(sb, ip0, ip) + f
  {
  }

  lemma LogsGrow(sb: Superblock, ip0: Inode, blocks0: Store, ip: Inode, blocks: Store, ip': Inode, blocks': Store,
                 lo: nat, hi: nat, a: int)
    requires lo <= hi < MAXFILE && |ip0.addrs| == |ip.addrs| == |ip'.addrs| == NDIRECT + 1
    requires forall x: nat | x < MAXFILE && x != hi :: Addr(ip', blocks', x) == Addr(ip, blocks, x)
    requires Addr(ip0, blocks0, hi) == Addr(ip, blocks, hi) && a == Addr(ip', blocks', hi)
    requires Ind(ip') == Ind(ip)
             || (Ind(ip) == Ind(ip0) && NDIRECT <= hi && Addr(ip, blocks, hi) == 0 && !NewEntry(ip0, blocks0, lo, hi))
    ensures Logs(sb, ip0, blocks0, ip', blocks', lo, hi + 1)
            == Logs(sb, ip0, blocks0, ip, blocks, lo, hi) + MapLogs(sb, ip, blocks, ip', hi, a) + {a}
  {
    SameAddrs(sb, ip0, blocks0, ip, blocks, ip', blocks', lo, hi);
    var x: set<int> := if Addr(ip, blocks, hi) == 0 then {Map1(sb, a)} else {};
    var e2: set<int> := if Addr(ip, blocks, hi) == 0 && NDIRECT <= hi then {Ind(ip')} else {};
    var f2: set<int> := if Ind(ip') == Ind(ip) then {} else {Map1(sb, Ind(ip'))};
    MapLogsParts(sb, ip, blocks, ip', hi, a, x, e2, f2);
    EntryLogGrows(sb, ip0, blocks0, ip, blocks, ip', lo, hi, e2, f2);
    Regroup(Touched(ip, blocks, lo, hi), Maps(sb, ip0, blocks0, ip, blocks, lo, hi), EntryLog(ip0, blocks0, ip, lo, hi),
            IndMap(sb, ip0, ip), a, x, e2, f2, MapLogs(sb, ip, blocks, ip', hi, a));
  }

  lemma Regroup(t: set<int>, m: set<int>, e: set<int>, f: set<int>, a: int, x: set<int>, e2: set<int>, f2: set<int>,
                ml: set<int>)
    requires ml + {a} == x + e2 + f2 + {a}
    ensures (t + {a}) + (m + x) + (e + e2) + (f + f2) == (t + m + e + f) + ml + {a}
  {
    assert (t + m + e + f) + ml + {a} == (t + m + e + f) + (ml + {a});
  }

  lemma AccountFor(sb: Superblock, ip0: Inode, blocks0: Store, ip: Inode, blocks: Store, ip': Inode, blocks': Store,
                   owned0: set<int>, owned: set<int>, logged0: set<int>, logged: set<int>, lo: nat, hi: nat, a: int)
    requires Accounted(sb, ip0, blocks0, ip, blocks, owned0, owned, logged0, logged, lo, hi)
    requires hi < MAXFILE && Bmapped(ip, blocks, ip', blocks', hi, a)
    ensures Accounted(sb, ip0, blocks0, ip', blocks', owned0, owned + MapAdds(ip, blocks, ip', hi, a), logged0,
                      logged + MapLogs(sb, ip, blocks, ip', hi, a) + {a}, lo, hi + 1)
  {
    AddedGrows(sb, ip0, blocks0, ip, blocks, ip', blocks', lo, hi, a);
    LogsGrow(sb, ip0, blocks0, ip, blocks, ip', blocks', lo, hi, a);
  }

  // The inode being written, the data blocks, and the sets of owned and logged blocks.
  datatype Snap = Snap(ip: Inode, blocks: Store, owned: set<int>, logged: set<int>)

  // One round of writei's loop: bmap of file block bn, then the data block is written and logged.
  ghost predicate Round(sb: Superblock, s: Snap, s': Snap, bn: nat, a: int) {
    && bn < MAXFILE && Bmapped(s.ip, s.blocks, s'.ip, s'.blocks, bn, a)
    && s'.ip == s.ip.(addrs := s'.ip.addrs)
    && Allots(sb, s.ip, s.blocks, s.owned, s'.ip, bn, a)
    && s'.owned == s.owned + MapAdds(s.ip, s.blocks, s'.ip, bn, a)
    && s'.logged == s.logged + MapLogs(sb, s.ip, s.blocks, s'.ip, bn, a) + {a}
    && OnlyLogged(s.blocks, s'.blocks, s'.logged)
  }

  ghost predicate RoundAt(sb: Superblock, snaps: seq<Snap>, addrs: seq<int>, lo: nat, k: nat)
    requires k < |addrs| && |snaps| == |addrs| + 1
  {
    Round(sb, snaps[k], snaps[k + 1], lo + k, addrs[k])
  }

  // The rounds for file blocks lo, lo + 1, ... in turn.
  ghost predicate Rounds(sb: Superblock, snaps: seq<Snap>, addrs: seq<int>, lo: nat) {
    && |snaps| == |addrs| + 1
    && forall k: nat {:trigger RoundAt(sb, snaps, addrs, lo, k)} | k < |addrs| :: RoundAt(sb, snaps, addrs, lo, k)
  }

  lemma RoundsStep(sb: Superblock, snaps: seq<Snap>, addrs: seq<int>, lo: nat, s: Snap, a: int)
    requires Rounds(sb, snaps, addrs, lo) && Round(sb, snaps[|addrs|], s, lo + |addrs|, a)
    ensures Rounds(sb, snaps + [s], addrs + [a], lo)
  {
    forall k: nat | k < |addrs| + 1
      ensures RoundAt(sb, snaps + [s], addrs + [a], lo, k)
    {
      assert k < |addrs| ==> RoundAt(sb, snaps, addrs, lo, k);
    }
  }

  ghost predicate Leads(sb: Superblock, s0: Snap, s: Snap, lo: nat, hi: nat, snaps: seq<Snap>, addrs: seq<int>) {
    Rounds(sb, snaps, addrs, lo) && lo + |addrs| == hi && snaps[0] == s0 && snaps[|addrs|] == s
  }

  // The loop over file blocks lo..hi leads from s0 to s.
  ghost predicate LoopWrote(sb: Superblock, s0: Snap, s: Snap, lo: nat, hi: nat) {
    exists snaps, addrs :: Leads(sb, s0, s, lo, hi, snaps, addrs)
  }

  lemma LoopStart(sb: Superblock, s: Snap, lo: nat)
    ensures LoopWrote(sb, s, s, lo, lo)
  {
    var snaps: seq<Snap>, addrs: seq<int> := [s], [];
    assert Leads(sb, s, s, lo, lo, snaps, addrs);
  }

  lemma LoopStep(sb: Superblock, s0: Snap, s: Snap, s': Snap, lo: nat, hi: nat, a: int)
    requires LoopWrote(sb, s0, s, lo, hi) && Round(sb, s, s', hi, a)
    ensures LoopWrote(sb, s0, s', lo, hi + 1)
  {
    var snaps, addrs :| Leads(sb, s0, s, lo, hi, snaps, addrs);
    RoundsStep(sb, snaps, addrs, lo, s', a);
    assert Leads(sb, s0, s', lo, hi + 1, snaps + [s'], addrs + [a]);
  }

  lemma NothingYet(sb: Superblock, s: Snap, lo: nat)
    requires lo <= MAXFILE && |s.ip.addrs| == NDIRECT + 1
    ensures Accounted(sb, s.ip, s.blocks, s.ip, s.blocks, s.owned, s.owned, s.logged, s.logged, lo, lo)
  {
  }

  // The k-th state is accounted for from the first.
  ghost predicate AccountedAt(sb: Superblock, snaps: seq<Snap>, lo: nat, k: nat)
    requires k < |snaps|
  {
    var s0, s := snaps[0], snaps[k];
    Accounted(sb, s0.ip, s0.blocks, s.ip, s.blocks, s0.owned, s.owned, s0.logged, s.logged, lo, lo + k)
  }

  lemma RoundAccount(sb: Superblock, snaps: seq<Snap>, addrs: seq<int>, lo: nat, k: nat)
    requires Rounds(sb, snaps, addrs, lo) && k < |addrs| && AccountedAt(sb, snaps, lo, k)
    ensures AccountedAt(sb, snaps, lo, k + 1)
  {
    var s0, s, s' := snaps[0], snaps[k], snaps[k + 1];
    assert RoundAt(sb, snaps, addrs, lo, k);
    AccountFor(sb, s0.ip, s0.blocks, s.ip, s.blocks, s'.ip, s'.blocks, s0.owned, s.owned, s0.logged, s.logged, lo,
               lo + k, addrs[k]);
  }

  /** What a whole writei loop allocates and logs follows from what each bmap does. */
  lemma {:induction false} RoundsAccount(sb: Superblock, snaps: seq<Snap>, addrs: seq<int>, lo: nat, k: nat)
    requires Rounds(sb, snaps, addrs, lo) && k <= |addrs|
    requires lo + |addrs| <= MAXFILE && |snaps[0].ip.addrs| == NDIRECT + 1
    ensures AccountedAt(sb, snaps, lo, k)
  {
    if k == 0 {
      NothingYet(sb, snaps[0], lo);
    } else {
      RoundsAccount(sb, snaps, addrs, lo, k - 1);
      RoundAccount(sb, snaps, addrs, lo, k - 1);
    }
  }

  lemma LoopAccount(sb: Superblock, s0: Snap, s: Snap, lo: nat, hi: nat)
    requires LoopWrote(sb, s0, s, lo, hi) && hi <= MAXFILE && |s0.ip.addrs| == NDIRECT + 1
    ensures Accounted(sb, s0.ip, s0.blocks, s.ip, s.blocks, s0.owned, s.owned, s0.logged, s.logged, lo, hi)
  {
    var snaps, addrs :| Leads(sb, s0, s, lo, hi, snaps, addrs);
    RoundsAccount(sb, snaps, addrs, lo, |addrs|);
  }

  lemma LoopLogs(sb: Superblock, s0: Snap, s: Snap, lo: nat, hi: nat)
    requires LoopWrote(sb, s0, s, lo, hi) && hi <= MAXFILE && |s0.ip.addrs| == NDIRECT + 1
    ensures |s.ip.addrs| == NDIRECT + 1
    ensures s.logged == s0.logged + Logs(sb, s0.ip, s0.blocks, s.ip, s.blocks, lo, hi)
    ensures s.owned == s0.owned + Added(s0.ip, s0.blocks, s.ip, s.blocks, lo, hi)
  {
    LoopAccount(sb, s0, s, lo, hi);
  }

  // A write-ahead log needs this: a block that is not logged has not changed.
  lemma {:induction false} RoundsOnlyLogged(sb: Superblock, snaps: seq<Snap>, addrs: seq<int>, lo: nat, k: nat)
    requires Rounds(sb, snaps, addrs, lo) && k <= |addrs|
    ensures OnlyLogged(snaps[0].blocks, snaps[k].blocks, snaps[k].logged)
  {
    if k > 0 {
      RoundsOnlyLogged(sb, snaps, addrs, lo, k - 1);
      assert RoundAt(sb, snaps, addrs, lo, k - 1);
      OnlyLoggedMore(snaps[0].blocks, snaps[k - 1].blocks, snaps[k].blocks, snaps[k - 1].logged, snaps[k].logged);
    }
  }

  lemma OnlyLoggedMore(a: Store, b: Store, c: Store, l: set<int>, l': set<int>)
    requires OnlyLogged(a, b, l) && OnlyLogged(b, c, l') && l <= l'
    ensures OnlyLogged(a, c, l')
  {
  }

  /** Every block that the loop of writei changes is logged. */
  lemma LoopOnlyLogged(sb: Superblock, s0: Snap, s: Snap, lo: nat, hi: nat)
    requires LoopWrote(sb, s0, s, lo, hi)
    ensures OnlyLogged(s0.blocks, s.blocks, s.logged)
  {
    var snaps, addrs :| Leads(sb, s0, s, lo, hi, snaps, addrs);
    RoundsOnlyLogged(sb, snaps, addrs, lo, |addrs|);
  }

  /*** How many ***/

  lemma {:induction false} TouchedSize(ip: Inode, blocks: Store, lo: nat, hi: nat)
    requires lo <= hi <= MAXFILE && |ip.addrs| == NDIRECT + 1
    ensures |Touched(ip, blocks, lo, hi)| <= hi - lo
  {
    if lo < hi {
      TouchedSize(ip, blocks, lo, hi - 1);
    }
  }

  lemma MapsGrow(sb: Superblock, ip0: Inode, blocks0: Store, ip: Inode, blocks: Store, lo: nat, hi: nat)
    requires lo < hi <= MAXFILE && |ip0.addrs| == |ip.addrs| == NDIRECT + 1
    ensures |Maps(sb, ip0, blocks0, ip, blocks, lo, hi)| <= |Maps(sb, ip0, blocks0, ip, blocks, lo, hi - 1)| + 1
  {
    WithSize(Maps(sb, ip0, blocks0, ip, blocks, lo, hi - 1), Map1(sb, Addr(ip, blocks, hi - 1)));
  }

  lemma {:induction false} MapsSize(sb: Superblock, ip0: Inode, blocks0: Store, ip: Inode, blocks: Store, lo: nat,
                                    hi: nat)
    requires lo <= hi <= MAXFILE && |ip0.addrs| == |ip.addrs| == NDIRECT + 1
    ensures |Maps(sb, ip0, blocks0, ip, blocks, lo, hi)| <= hi - lo
  {
    if lo < hi {
      MapsSize(sb, ip0, blocks0, ip, blocks, lo, hi - 1);
      MapsGrow(sb, ip0, blocks0, ip, blocks, lo, hi);
    }
  }

  // A file block that is mapped already needs no bitmap block.
  lemma {:induction false} MapsSkip(sb: Superblock, ip0: Inode, blocks0: Store, ip: Inode, blocks: Store, lo: nat,
                                    hi: nat)
    requires lo < hi <= MAXFILE && |ip0.addrs| == |ip.addrs| == NDIRECT + 1 && Addr(ip0, blocks0, lo) != 0
    ensures Maps(sb, ip0, blocks0, ip, blocks, lo, hi) == Maps(sb, ip0, blocks0, ip, blocks, lo + 1, hi)
  {
    if lo + 1 < hi {
      MapsSkip(sb, ip0, blocks0, ip, blocks, lo, hi - 1);
    }
  }

  lemma UnionSize<T>(a: set<T>, b: set<T>)
    ensures |a + b| <= |a| + |b|
  {
  }

  // Range of file blocks that hold bytes off..off + n.
  function FirstBlock(off: nat): (lo: nat) {
    off / 512
  }

  function EndBlock(off: nat, n: nat): (hi: nat) {
    if n == 0 then off / 512 else (off + n - 1) / 512 + 1
  }

  // Three blocks' worth of bytes span four blocks only when they start inside one.
  lemma SpanOfThree(off: nat, n: nat)
    requires n <= 3 * 512 && off + n <= MAXBYTES
    ensures FirstBlock(off) <= EndBlock(off, n) <= FirstBlock(off) + (if off % 512 == 0 then 3 else 4)
    ensures EndBlock(off, n) <= MAXFILE && (n > 0 ==> FirstBlock(off) < EndBlock(off, n))
  {
  }

  // Without holes, a position inside a block at or below the size is in a mapped block.
  lemma StartsMapped(ip0: Inode, blocks0: Store, off: nat)
    requires |ip0.addrs| == NDIRECT + 1 && NoHoles(ip0, blocks0) && off <= ip0.size && off % 512 != 0 && off < MAXBYTES
    ensures Addr(ip0, blocks0, FirstBlock(off)) != 0
  {
    assert FirstBlock(off) * 512 < off;
  }

  // With no holes below the size, a write that starts inside a block finds that block mapped.
  lemma DataAndMaps(sb: Superblock, ip0: Inode, blocks0: Store, ip: Inode, blocks: Store, off: nat, n: nat)
    requires |ip0.addrs| == |ip.addrs| == NDIRECT + 1 && off + n <= MAXBYTES
    requires NoHoles(ip0, blocks0) && off <= ip0.size && n <= 3 * 512
    ensures var lo, hi := FirstBlock(off), EndBlock(off, n);
            lo <= hi <= MAXFILE && hi <= lo + 4 && |Maps(sb, ip0, blocks0, ip, blocks, lo, hi)| <= 3
  {
    var lo, hi := FirstBlock(off), EndBlock(off, n);
    SpanOfThree(off, n);
    if off % 512 != 0 && n > 0 {
      StartsMapped(ip0, blocks0, off);
      MapsSkip(sb, ip0, blocks0, ip, blocks, lo, hi);
      MapsSize(sb, ip0, blocks0, ip, blocks, lo + 1, hi);
    } else {
      MapsSize(sb, ip0, blocks0, ip, blocks, lo, hi);
    }
  }

  /**
    One filewrite transaction, of at most three blocks' bytes at any offset up
    to the size, logs at most MAXOPBLOCKS blocks; the inode block, which comes
    last, is one of them.
   */
  lemma TransactionBound(sb: Superblock, i: nat, ip0: Inode, blocks0: Store, ip: Inode, blocks: Store, off: nat, n: nat)
    requires |ip0.addrs| == |ip.addrs| == NDIRECT + 1 && off + n <= MAXBYTES
    requires NoHoles(ip0, blocks0) && off <= ip0.size && n <= 3 * 512
    ensures EndBlock(off, n) <= MAXFILE
    ensures |Logs(sb, ip0, blocks0, ip, blocks, FirstBlock(off), EndBlock(off, n))| < MAXOPBLOCKS
    ensures |Logs(sb, ip0, blocks0, ip, blocks, FirstBlock(off), EndBlock(off, n)) + {sb.Iblock(i) as int}|
            <= MAXOPBLOCKS
  {
    var lo, hi := FirstBlock(off), EndBlock(off, n);
    DataAndMaps(sb, ip0, blocks0, ip, blocks, off, n);
    TouchedSize(ip, blocks, lo, hi);
    LogsSize(sb, ip0, blocks0, ip, blocks, lo, hi, sb.Iblock(i));
  }

  lemma LogsSize(sb: Superblock, ip0: Inode, blocks0: Store, ip: Inode, blocks: Store, lo: nat, hi: nat, iblock: int)
    requires hi <= MAXFILE && |ip0.addrs| == |ip.addrs| == NDIRECT + 1
    ensures |Logs(sb, ip0, blocks0, ip, blocks, lo, hi)|
            <= |Touched(ip, blocks, lo, hi)| + |Maps(sb, ip0, blocks0, ip, blocks, lo, hi)| + 2
    ensures |Logs(sb, ip0, blocks0, ip, blocks, lo, hi) + {iblock}|
            <= |Touched(ip, blocks, lo, hi)| + |Maps(sb, ip0, blocks0, ip, blocks, lo, hi)| + 3
  {
    var data, maps := Touched(ip, blocks, lo, hi), Maps(sb, ip0, blocks0, ip, blocks, lo, hi);
    var ind, imaps := EntryLog(ip0, blocks0, ip, lo, hi), IndMap(sb, ip0, ip);
    UnionSize(data, maps);
    UnionSize(data + maps, ind);
    UnionSize(data + maps + ind, imaps);
    UnionSize(data + maps + ind + imaps, {iblock});
  }

  // Inside a file without holes no file block is missing.
  lemma {:induction false} NoneMissing(ip0: Inode, blocks0: Store, lo: nat, hi: nat)
    requires |ip0.addrs| == NDIRECT + 1 && NoHoles(ip0, blocks0)
    requires hi <= MAXFILE && (hi == 0 || (hi - 1) * 512 < ip0.size)
    ensures !NewEntry(ip0, blocks0, lo, hi)
  {
    if lo < hi {
      NoneMissing(ip0, blocks0, lo, hi - 1);
    }
  }

  /**
    A write that stays within the size maps nothing, so the inode it leaves
    behind is the one on disk although iupdate is not called.
   */
  lemma WriteThrough(sb: Superblock, ip0: Inode, blocks0: Store, ip: Inode, blocks: Store, owned0: set<int>,
                     owned: set<int>, logged0: set<int>, logged: set<int>, off: nat, n: nat)
    requires off + n <= ip0.size <= MAXBYTES && |ip0.addrs| == NDIRECT + 1 && NoHoles(ip0, blocks0)
    requires Accounted(sb, ip0, blocks0, ip, blocks, owned0, owned, logged0, logged, FirstBlock(off), EndBlock(off, n))
    requires ip == ip0.(addrs := ip.addrs)
    requires forall s: nat | s < NSLOTS && SlotVal(ip0, blocks0, s) != 0 ::
               SlotVal(ip, blocks, s) == SlotVal(ip0, blocks0, s)
    ensures ip == ip0
  {
    var lo, hi := FirstBlock(off), EndBlock(off, n);
    assert n > 0 ==> (hi - 1) * 512 < ip0.size;
    if lo < hi {
      NoneMissing(ip0, blocks0, lo, hi);
    }
    forall x: nat | x < NDIRECT
      ensures ip.addrs[x] == ip0.addrs[x]
    {
      assert Addr(ip, blocks, x) == ip.addrs[x] && Addr(ip0, blocks0, x) == ip0.addrs[x];
      if lo <= x < hi {
        assert SlotVal(ip0, blocks0, DataSlot(x)) != 0;
      }
    }
    assert ip.addrs == ip0.addrs;
  }
}
