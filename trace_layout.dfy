/** The values a TraceSet is made of, and the specification functions its
    operations are proved against: the occurrences of an LBA in the trace,
    the seek distance of a placement, the compaction of the location index,
    the relocation of a block of LBAs and the repair of the LBA index from
    the location index. */
module TraceLayout {

  datatype Option<T> = None | Some(value: T)

  /** One access of the trace. `next` is the index of the following access
      to the same LBA; it stays unset on the latest access of that LBA. */
  datatype Line = Line(lba: nat, next: Option<nat>)

  /** The entry of the LBA index (`mapLBA_`) for one LBA. */
  datatype BlockLBA = BlockLBA(first: nat, last: nat, location: nat, used: bool)

  /** The entry of the location index (`locations_`) for one location. */
  datatype LBALocation = LBALocation(lba: nat, used: bool)

  /** What `vector::resize` stores in a new slot: a value-initialised struct. */
  const FreshBlock: BlockLBA := BlockLBA(0, 0, 0, false)
  const FreshSlot: LBALocation := LBALocation(0, false)

  /** `s` resized to `n` slots, the new ones holding `blank`. */
  function Grown<T>(s: seq<T>, n: nat, blank: T): (r: seq<T>)
    requires |s| <= n
    ensures |r| == n && r[..|s|] == s
    ensures forall i :: |s| <= i < n ==> r[i] == blank
  {
    s + seq(n - |s|, _ => blank)
  }

  predicate Distinct(xs: seq<nat>) {
    forall i, j :: 0 <= i < j < |xs| ==> xs[i] != xs[j]
  }

  function Members(xs: seq<nat>): set<nat> {
    set x | x in xs
  }

  /** The table of `remove_LBA_locations` grows by one LBA per entry. */
  lemma MembersStep(xs: seq<nat>, k: nat)
    requires k < |xs|
    ensures Members(xs[..k + 1]) == Members(xs[..k]) + {xs[k]}
  {
    assert xs[..k + 1] == xs[..k] + [xs[k]];
  }

  // ---------------------------------------------------------------------
  // The trace and its occurrence chains

  /** The LBAs of the trace, in access order. */
  function Lbas(sq: seq<Line>): (r: seq<nat>)
    ensures |r| == |sq|
    ensures forall i :: 0 <= i < |sq| ==> r[i] == sq[i].lba
  {
    seq(|sq|, i requires 0 <= i < |sq| => sq[i].lba)
  }

  /** The indices of every access to `v`, in increasing order. */
  function Occurrences(sq: seq<Line>, v: nat): (r: seq<nat>)
    ensures |r| <= |sq|
  {
    if sq == [] then []
    else Occurrences(sq[..|sq| - 1], v) + (if sq[|sq| - 1].lba == v then [|sq| - 1] else [])
  }

  /** The occurrences of `v` are exactly the accesses to `v`, each listed once, in increasing order. */
  lemma {:induction false} OccurrencesSpec(sq: seq<Line>, v: nat)
    ensures forall j :: 0 <= j < |Occurrences(sq, v)| ==> Occurrences(sq, v)[j] < |sq| && sq[Occurrences(sq, v)[j]].lba == v
    ensures forall i :: 0 <= i < |sq| && sq[i].lba == v ==> i in Occurrences(sq, v)
    ensures forall j, k :: 0 <= j < k < |Occurrences(sq, v)| ==> Occurrences(sq, v)[j] < Occurrences(sq, v)[k]
  {
    if sq != [] {
      OccurrencesSpec(sq[..|sq| - 1], v);
    }
  }

  /** A stretch of the trace without `v` adds no occurrence of `v`. */
  lemma {:induction false} OccurrencesSkip(sq: seq<Line>, v: nat, a: nat, b: nat)
    requires a <= b <= |sq|
    requires forall k :: a <= k < b ==> sq[k].lba != v
    ensures Occurrences(sq[..b], v) == Occurrences(sq[..a], v)
  {
    if a < b {
      assert sq[..b][..b - 1] == sq[..b - 1];
      OccurrencesSkip(sq, v, a, b - 1);
    }
  }

  /** The occurrences of `v` up to `j` are those up to `i` followed by `j`,
      when `j` is the next access to `v` after `i` (or the first one, with `i = -1`). */
  lemma {:induction false} OccurrencesNext(sq: seq<Line>, v: nat, i: int, j: nat)
    requires -1 <= i < j < |sq| && sq[j].lba == v
    requires forall k :: i < k < j ==> sq[k].lba != v
    ensures Occurrences(sq[..j + 1], v) == Occurrences(sq[..i + 1], v) + [j]
  {
    OccurrencesSkip(sq, v, i + 1, j);
    assert sq[..j + 1][..j] == sq[..j];
  }

  /** Following the `next` link of an access to `v` that is not the last
      one leads to the following access to `v`, which is not beyond the last. */
  lemma FollowLink(sq: seq<Line>, v: nat, i: nat, l: nat)
    requires i < l < |sq| && sq[i].lba == v && sq[l].lba == v
    requires forall k :: l < k < |sq| ==> sq[k].lba != v
    requires LinkedOnward(sq, i)
    ensures sq[i].next.Some? && i < sq[i].next.value <= l && sq[sq[i].next.value].lba == v
    ensures Occurrences(sq[..sq[i].next.value + 1], v) == Occurrences(sq[..i + 1], v) + [sq[i].next.value]
  {
    OccurrencesNext(sq, v, i, sq[i].next.value);
  }

  /** The occurrences of `v` end with the access `l` when no later access is to `v`. */
  lemma {:induction false} OccurrencesEnd(sq: seq<Line>, v: nat, l: int)
    requires -1 <= l < |sq|
    requires forall k :: l < k < |sq| ==> sq[k].lba != v
    ensures Occurrences(sq, v) == Occurrences(sq[..l + 1], v)
  {
    OccurrencesSkip(sq, v, l + 1, |sq|);
    assert sq[..|sq|] == sq;
  }

  /** `f` and `l` are the first and the last access to `v`, and the last one is not linked onward. */
  predicate FirstAndLast(sq: seq<Line>, v: nat, f: nat, l: nat) {
    && f <= l < |sq|
    && sq[f].lba == v && sq[l].lba == v
    && sq[l].next.None?
    && (forall k :: 0 <= k < f ==> sq[k].lba != v)
    && (forall k :: l < k < |sq| ==> sq[k].lba != v)
  }

  /** The `next` link of access `i` points at the following access to the same LBA, if there is one. */
  predicate LinkedOnward(sq: seq<Line>, i: nat)
    requires i < |sq|
  {
    match sq[i].next
    case None => forall k :: i < k < |sq| ==> sq[k].lba != sq[i].lba
    case Some(j) => i < j < |sq| && sq[j].lba == sq[i].lba && forall k :: i < k < j ==> sq[k].lba != sq[i].lba
  }

  /** The trace and the LBA index agree: every accessed LBA is used, the
      first/last fields of a used LBA are right, and the `next` links chain
      the accesses of every LBA in order. */
  ghost predicate Chained(sq: seq<Line>, m: seq<BlockLBA>) {
    && (forall i :: 0 <= i < |sq| ==> sq[i].lba < |m| && m[sq[i].lba].used)
    && (forall v :: 0 <= v < |m| && m[v].used ==> FirstAndLast(sq, v, m[v].first, m[v].last))
    && (forall i :: 0 <= i < |sq| ==> LinkedOnward(sq, i))
  }

  /** What `get_indices` relies on for one LBA `v`: where its accesses
      start and end if it is used, that it has none otherwise, and how
      every access is linked. */
  ghost predicate LinksOf(sq: seq<Line>, m: seq<BlockLBA>, v: nat) {
    && v < |m|
    && (m[v].used ==> FirstAndLast(sq, v, m[v].first, m[v].last))
    && (!m[v].used ==> forall k :: 0 <= k < |sq| ==> sq[k].lba != v)
    && (forall i :: 0 <= i < |sq| ==> LinkedOnward(sq, i))
  }

  lemma ChainOf(sq: seq<Line>, m: seq<BlockLBA>, v: nat)
    requires Chained(sq, m) && v < |m|
    ensures LinksOf(sq, m, v)
  {
  }

  /** Only the `used`, `first` and `last` fields of the LBA index matter to the chain. */
  lemma {:induction false} ChainedIgnoresLocations(sq: seq<Line>, m: seq<BlockLBA>, m': seq<BlockLBA>)
    requires Chained(sq, m)
    requires |m'| == |m|
    requires forall v :: 0 <= v < |m| ==> m'[v].used == m[v].used && m'[v].first == m[v].first && m'[v].last == m[v].last
    ensures Chained(sq, m')
  {
  }

  /** Appending another access of a used LBA `v` links the previous last
      access of `v` to it and makes it the last one. */
  lemma {:induction false} ChainedAppendSeen(sq: seq<Line>, m: seq<BlockLBA>, v: nat)
    requires Chained(sq, m) && v < |m| && m[v].used
    ensures m[v].last < |sq|
    ensures Chained(sq[m[v].last := Line(v, Some(|sq|))] + [Line(v, None)], m[v := m[v].(last := |sq|)])
  {
    var n, p := |sq|, m[v].last;
    var sq' := sq[p := Line(v, Some(n))] + [Line(v, None)];
    var m' := m[v := m[v].(last := n)];
    assert FirstAndLast(sq, v, m[v].first, p);
    assert forall i :: 0 <= i < |sq'| ==> sq'[i].lba == if i < n then sq[i].lba else v;
    forall w | 0 <= w < |m'| && m'[w].used
      ensures FirstAndLast(sq', w, m'[w].first, m'[w].last)
    {
      assert FirstAndLast(sq, w, m[w].first, m[w].last);
    }
    AppendSeenLinked(sq, v, p);
  }

  /** Linking the last access of `v` to a new access of `v` at the end
      keeps every access linked onward. */
  lemma AppendSeenLinked(sq: seq<Line>, v: nat, p: nat)
    requires p < |sq| && sq[p].lba == v
    requires forall k :: p < k < |sq| ==> sq[k].lba != v
    requires forall i :: 0 <= i < |sq| ==> LinkedOnward(sq, i)
    ensures var sq' := sq[p := Line(v, Some(|sq|))] + [Line(v, None)];
      forall i :: 0 <= i < |sq'| ==> LinkedOnward(sq', i)
  {
    var n := |sq|;
    var sq' := sq[p := Line(v, Some(n))] + [Line(v, None)];
    forall i | 0 <= i < |sq'| ensures LinkedOnward(sq', i) {
      if i < n && i != p {
        assert LinkedOnward(sq, i);
        if sq[i].next.None? && sq[i].lba == v {
          assert false;
        }
      }
    }
  }

  /** Appending the first access of an LBA `v` that the LBA index now marks
      used, with this access as its first and last one. */
  lemma {:induction false} ChainedAppendNew(sq: seq<Line>, m: seq<BlockLBA>, m': seq<BlockLBA>, v: nat)
    requires Chained(sq, m)
    requires !(v < |m| && m[v].used)
    requires |m| <= |m'| && v < |m'|
    requires forall w :: 0 <= w < |m'| && w != v ==> m'[w] == if w < |m| then m[w] else FreshBlock
    requires m'[v] == BlockLBA(|sq|, |sq|, v, true)
    ensures Chained(sq + [Line(v, None)], m')
  {
    var n := |sq|;
    var sq' := sq + [Line(v, None)];
    forall w | 0 <= w < |m'| && m'[w].used
      ensures FirstAndLast(sq', w, m'[w].first, m'[w].last)
    {
      if w != v {
        assert FirstAndLast(sq, w, m[w].first, m[w].last);
      }
    }
    forall i | 0 <= i < |sq'| ensures LinkedOnward(sq', i) {
      if i < n {
        assert LinkedOnward(sq, i);
      }
    }
  }

  // ---------------------------------------------------------------------
  // Seek distance

  /** The seek distance between two locations, found by subtracting the smaller from the larger. */
  function Dist(a: nat, b: nat): (d: nat)
    ensures a + d == b || b + d == a
    ensures d == 0 <==> a == b
  {
    if a < b then b - a else a - b
  }

  /** The sum of the seek distances between consecutive locations. */
  function TotalDistance(ls: seq<nat>): (t: nat)
    ensures |ls| > 0 ==> t >= Dist(ls[0], ls[|ls| - 1])
  {
    if |ls| <= 1 then 0
    else TotalDistance(ls[..|ls| - 1]) + Dist(ls[|ls| - 2], ls[|ls| - 1])
  }

  /** The location of every access of the trace, in access order. */
  function LocationsOf(sq: seq<Line>, m: seq<BlockLBA>): (ls: seq<nat>)
    requires forall i :: 0 <= i < |sq| ==> sq[i].lba < |m|
    ensures |ls| == |sq|
    ensures forall i :: 0 <= i < |sq| ==> ls[i] == m[sq[i].lba].location
  {
    seq(|sq|, i requires 0 <= i < |sq| => m[sq[i].lba].location)
  }

  /** One more access adds the distance from the access before it. */
  lemma TotalDistanceStep(sq: seq<Line>, m: seq<BlockLBA>, k: nat)
    requires 1 <= k < |sq|
    requires forall i :: 0 <= i < |sq| ==> sq[i].lba < |m|
    ensures TotalDistance(LocationsOf(sq[..k + 1], m)) ==
      TotalDistance(LocationsOf(sq[..k], m)) + Dist(m[sq[k - 1].lba].location, m[sq[k].lba].location)
  {
    assert LocationsOf(sq[..k + 1], m)[..k] == LocationsOf(sq[..k], m);
  }

  /** A placement costs nothing exactly when the head never moves. */
  lemma {:induction false} TotalDistanceZero(ls: seq<nat>)
    ensures TotalDistance(ls) == 0 <==> forall i :: 0 <= i < |ls| ==> ls[i] == ls[0]
  {
    if |ls| > 1 {
      var init := ls[..|ls| - 1];
      TotalDistanceZero(init);
      if TotalDistance(ls) == 0 {
        forall i | 0 <= i < |ls| ensures ls[i] == ls[0] {
          if i < |ls| - 1 {
            assert init[i] == ls[i];
          }
        }
      }
      if forall i :: 0 <= i < |ls| ==> ls[i] == ls[0] {
        assert forall i :: 0 <= i < |init| ==> init[i] == init[0];
      }
    }
  }

  /** The locations d*0, d*1, ..., d*(n-1). */
  function Progression(n: nat, d: nat): (ls: seq<nat>)
    ensures |ls| == n
  {
    seq(n, i => d * i)
  }

  /** Visiting evenly spaced locations in order costs the spacing times the number of moves. */
  lemma {:induction false} TotalDistanceProgression(n: nat, d: nat)
    requires n > 0
    ensures TotalDistance(Progression(n, d)) == d * (n - 1)
  {
    if n > 1 {
      var ls := Progression(n, d);
      assert ls[..n - 1] == Progression(n - 1, d);
      TotalDistanceProgression(n - 1, d);
      assert ls[n - 1] == d * (n - 2) + d;
      assert Dist(ls[n - 2], ls[n - 1]) == d;
      assert d * (n - 2) + d == d * (n - 1);
    }
  }

  /** A well-formed trace of the LBAs 0, 2, 4, ..., 98 that has not been
      relocated costs 98. */
  lemma {:induction false} SeekDistanceOfEvens(sq: seq<Line>, m: seq<BlockLBA>, locs: seq<LBALocation>)
    requires Wellformed(sq, m, locs) && IdentityLayout(locs)
    requires Lbas(sq) == Progression(50, 2)
    ensures TotalDistance(LocationsOf(sq, m)) == 98
  {
    IdentityLocations(sq, m, locs);
    TotalDistanceProgression(50, 2);
  }

  /** The state of the loop of `total_seek_distance`: the positions of its two iterators and the running sum. */
  datatype SeekLoop = SeekLoop(current: nat, next: nat, total: nat)

  /** The loop of `total_seek_distance` as written, after `k` passes from
      its initial state, over the locations `ls`: the body adds the distance
      between the two iterators, and the increments of both iterators stand
      after the loop, so no pass moves them. */
  function AsWrittenSeekLoop(ls: seq<nat>, k: nat): SeekLoop
  {
    if k == 0 then SeekLoop(0, 1, 0)
    else
      var st := AsWrittenSeekLoop(ls, k - 1);
      if st.next < |ls| && st.current < |ls| then st.(total := st.total + Dist(ls[st.current], ls[st.next]))
      else st
  }

  /** With two or more accesses the loop as written still has its guard
      true after any number of passes (so it never exits), and its sum grows
      by the first distance on every pass. */
  lemma {:induction false} AsWrittenSeekLoopNeverExits(ls: seq<nat>, k: nat)
    requires |ls| >= 2
    ensures AsWrittenSeekLoop(ls, k).next == 1 < |ls|
    ensures AsWrittenSeekLoop(ls, k) == SeekLoop(0, 1, k * Dist(ls[0], ls[1]))
  {
    if k > 0 {
      AsWrittenSeekLoopNeverExits(ls, k - 1);
      assert (k - 1) * Dist(ls[0], ls[1]) + Dist(ls[0], ls[1]) == k * Dist(ls[0], ls[1]);
    }
  }

  // ---------------------------------------------------------------------
  // The two indexes

  /** A used slot of the location index that holds `v`. */
  predicate Holds(x: LBALocation, v: nat) {
    x == LBALocation(v, true)
  }

  /** The LBA index and the location index describe the same pairing:
      every slot names an LBA inside the LBA index, every used LBA sits in
      a used slot naming it, and every used slot is the location its LBA
      records. */
  ghost predicate Consistent(m: seq<BlockLBA>, locs: seq<LBALocation>) {
    && (forall l :: 0 <= l < |locs| ==> locs[l].lba < |m|)
    && (forall v :: 0 <= v < |m| && m[v].used ==> m[v].location < |locs| && Holds(locs[m[v].location], v))
    && (forall l :: 0 <= l < |locs| && locs[l].used ==> m[locs[l].lba].used && m[locs[l].lba].location == l)
  }

  /** No relocation has happened: every used location holds the LBA of the same number. */
  ghost predicate IdentityLayout(locs: seq<LBALocation>) {
    forall l :: 0 <= l < |locs| && locs[l].used ==> locs[l].lba == l
  }

  /** Before any relocation every accessed LBA sits at the location of the same number,
      so the seek distance of the trace is that of its LBAs. */
  lemma {:induction false} IdentityLocations(sq: seq<Line>, m: seq<BlockLBA>, locs: seq<LBALocation>)
    requires Chained(sq, m) && Consistent(m, locs) && IdentityLayout(locs)
    ensures LocationsOf(sq, m) == Lbas(sq)
  {
    forall i | 0 <= i < |sq| ensures LocationsOf(sq, m)[i] == Lbas(sq)[i] {
      var v := sq[i].lba;
      assert Holds(locs[m[v].location], v);
    }
  }

  /** A first access of `v` claims the slot of the same number, grown
      into the index if need be; the pair stays consistent when that slot
      was free. */
  lemma {:induction false} ConsistentClaim(m: seq<BlockLBA>, locs: seq<LBALocation>, v: nat, size: nat, n: nat)
    requires Consistent(m, locs) && |m| == |locs|
    requires !(v < |m| && m[v].used)
    requires v >= |locs| || !locs[v].used
    requires |m| <= size && v < size
    ensures Consistent(Grown(m, size, FreshBlock)[v := BlockLBA(n, n, v, true)],
                       Grown(locs, size, FreshSlot)[v := LBALocation(v, true)])
  {
    var m' := Grown(m, size, FreshBlock)[v := BlockLBA(n, n, v, true)];
    var locs' := Grown(locs, size, FreshSlot)[v := LBALocation(v, true)];
    assert forall w :: 0 <= w < size && w != v ==> m'[w] == if w < |m| then m[w] else FreshBlock;
    assert forall l :: 0 <= l < size && l != v ==> locs'[l] == if l < |locs| then locs[l] else FreshSlot;
  }

  /** Before any relocation a new LBA always finds the slot of its own number free. */
  lemma IdentitySlotFree(m: seq<BlockLBA>, locs: seq<LBALocation>, v: nat)
    requires Consistent(m, locs) && IdentityLayout(locs)
    ensures (v < |m| && m[v].used) || v >= |locs| || !locs[v].used
  {
  }

  /** The invariant of a trace set: both indexes have the same, positive
      size; the chain describes the trace; the two indexes agree. */
  ghost predicate Wellformed(sq: seq<Line>, m: seq<BlockLBA>, locs: seq<LBALocation>) {
    && |m| == |locs| && |m| >= 1
    && Chained(sq, m)
    && Consistent(m, locs)
  }

  /** A repeat access of a used LBA keeps the trace set well formed. */
  lemma {:induction false} AppendSeenKeeps(sq: seq<Line>, m: seq<BlockLBA>, locs: seq<LBALocation>, v: nat)
    requires Wellformed(sq, m, locs) && v < |m| && m[v].used
    ensures m[v].last < |sq|
    ensures Wellformed(sq[m[v].last := Line(v, Some(|sq|))] + [Line(v, None)], m[v := m[v].(last := |sq|)], locs)
    ensures Lbas(sq[m[v].last := Line(v, Some(|sq|))] + [Line(v, None)]) == Lbas(sq) + [v]
  {
    ChainedAppendSeen(sq, m, v);
    var m' := m[v := m[v].(last := |sq|)];
    assert forall w :: 0 <= w < |m| ==> m'[w].used == m[w].used && m'[w].location == m[w].location;
  }

  /** The first access of an LBA whose own location is free keeps the trace
      set well formed, and keeps a layout without relocations so. */
  lemma {:induction false} AppendNewKeeps(sq: seq<Line>, m: seq<BlockLBA>, locs: seq<LBALocation>, v: nat, size: nat)
    requires Wellformed(sq, m, locs)
    requires !(v < |m| && m[v].used)
    requires v >= |locs| || !locs[v].used
    requires |m| <= size && v < size
    ensures Wellformed(sq + [Line(v, None)],
                       Grown(m, size, FreshBlock)[v := BlockLBA(|sq|, |sq|, v, true)],
                       Grown(locs, size, FreshSlot)[v := LBALocation(v, true)])
    ensures IdentityLayout(locs) ==> IdentityLayout(Grown(locs, size, FreshSlot)[v := LBALocation(v, true)])
    ensures Lbas(sq + [Line(v, None)]) == Lbas(sq) + [v]
  {
    var m' := Grown(m, size, FreshBlock)[v := BlockLBA(|sq|, |sq|, v, true)];
    ConsistentClaim(m, locs, v, size, |sq|);
    assert forall w :: 0 <= w < |m'| && w != v ==> m'[w] == if w < |m| then m[w] else FreshBlock;
    ChainedAppendNew(sq, m, m', v);
  }

  /** The number of used slots holding `v`. */
  function UsedCount(locs: seq<LBALocation>, v: nat): (c: nat)
    ensures c <= |locs|
  {
    if locs == [] then 0
    else UsedCount(locs[..|locs| - 1], v) + (if Holds(locs[|locs| - 1], v) then 1 else 0)
  }

  lemma {:induction false} UsedCountConcat(a: seq<LBALocation>, b: seq<LBALocation>, v: nat)
    ensures UsedCount(a + b, v) == UsedCount(a, v) + UsedCount(b, v)
  {
    if b == [] {
      assert a + b == a;
    } else {
      var b' := b[..|b| - 1];
      assert (a + b)[..|a + b| - 1] == a + b';
      UsedCountConcat(a, b', v);
    }
  }

  lemma {:induction false} UsedCountPositive(s: seq<LBALocation>, v: nat, l: nat)
    requires l < |s| && Holds(s[l], v)
    ensures UsedCount(s, v) >= 1
  {
    if l < |s| - 1 {
      UsedCountPositive(s[..|s| - 1], v, l);
    }
  }

  /** If every used slot holding `v` is slot `l0`, there is at most one of them. */
  lemma {:induction false} UsedCountAtMostOne(s: seq<LBALocation>, v: nat, l0: nat)
    requires forall i :: 0 <= i < |s| && Holds(s[i], v) ==> i == l0
    ensures UsedCount(s, v) == if l0 < |s| && Holds(s[l0], v) then 1 else 0
  {
    if s != [] {
      UsedCountAtMostOne(s[..|s| - 1], v, l0);
    }
  }

  /** In a consistent pair every used LBA occupies exactly one slot, and nothing else occupies one. */
  lemma {:induction false} ConsistentCounts(m: seq<BlockLBA>, locs: seq<LBALocation>, v: nat)
    requires Consistent(m, locs)
    ensures UsedCount(locs, v) == if v < |m| && m[v].used then 1 else 0
  {
    if v < |m| && m[v].used {
      UsedCountAtMostOne(locs, v, m[v].location);
    } else {
      UsedCountAtMostOne(locs, v, |locs|);
    }
  }

  /** The last used slot holding `v`, if any. */
  function SlotFor(locs: seq<LBALocation>, v: nat): (r: Option<nat>)
    ensures r.Some? ==> r.value < |locs| && Holds(locs[r.value], v)
    ensures r.None? ==> forall i :: 0 <= i < |locs| ==> !Holds(locs[i], v)
    ensures r.Some? <==> UsedCount(locs, v) > 0
  {
    if locs == [] then None
    else if Holds(locs[|locs| - 1], v) then Some(|locs| - 1)
    else SlotFor(locs[..|locs| - 1], v)
  }

  /** A slot holding `v` is the one `SlotFor` finds when no other slot holds `v`. */
  lemma {:induction false} SlotForUnique(s: seq<LBALocation>, v: nat, l: nat)
    requires l < |s| && Holds(s[l], v) && UsedCount(s, v) <= 1
    ensures SlotFor(s, v) == Some(l)
  {
    if l < |s| - 1 {
      UsedCountPositive(s[..|s| - 1], v, l);
      SlotForUnique(s[..|s| - 1], v, l);
    }
  }

  /** The LBA index with every location taken from the location index
      (what `fix_locations` computes): an LBA held by a used slot gets the
      last such slot as its location; every other field is kept. */
  function Reconcile(m: seq<BlockLBA>, locs: seq<LBALocation>): (r: seq<BlockLBA>)
    ensures |r| == |m|
    ensures forall v :: 0 <= v < |m| ==> r[v].used == m[v].used && r[v].first == m[v].first && r[v].last == m[v].last
  {
    seq(|m|, v requires 0 <= v < |m| =>
      match SlotFor(locs, v)
      case Some(l) => m[v].(location := l)
      case None => m[v])
  }

  /** Reading one more slot of the location index updates at most the entry of its LBA. */
  lemma {:induction false} ReconcileStep(m: seq<BlockLBA>, s: seq<LBALocation>, x: LBALocation)
    requires x.lba < |m|
    ensures Reconcile(m, s + [x]) ==
      if x.used then Reconcile(m, s)[x.lba := Reconcile(m, s)[x.lba].(location := |s|)] else Reconcile(m, s)
  {
    assert (s + [x])[..|s|] == s;
  }

  /** Repairing twice changes nothing more than repairing once. */
  lemma {:induction false} ReconcileIdempotent(m: seq<BlockLBA>, locs: seq<LBALocation>)
    ensures Reconcile(Reconcile(m, locs), locs) == Reconcile(m, locs)
  {
  }

  /** Repair gives every used LBA its true location back after the
      locations of the LBA index were corrupted, and leaves the entries of
      unused LBAs alone; on a consistent pair it changes nothing. */
  lemma {:induction false} ReconcileRepairs(m: seq<BlockLBA>, m': seq<BlockLBA>, locs: seq<LBALocation>)
    requires Consistent(m, locs)
    requires |m'| == |m|
    requires forall v :: 0 <= v < |m| ==> m'[v].used == m[v].used && m'[v].first == m[v].first && m'[v].last == m[v].last
    ensures forall v :: 0 <= v < |m| && m[v].used ==> Reconcile(m', locs)[v] == m[v]
    ensures forall v :: 0 <= v < |m| && !m[v].used ==> Reconcile(m', locs)[v] == m'[v]
    ensures Reconcile(m, locs) == m
  {
    forall v | 0 <= v < |m|
      ensures SlotFor(locs, v) == if m[v].used then Some(m[v].location) else None
    {
      ConsistentCounts(m, locs, v);
      if m[v].used {
        SlotForUnique(locs, v, m[v].location);
      }
    }
  }

  /** Repair makes the pair consistent whenever every used LBA occupies exactly one used slot and no unused one occupies any. */
  lemma {:induction false} ReconcileRestores(m: seq<BlockLBA>, locs: seq<LBALocation>)
    requires forall l :: 0 <= l < |locs| ==> locs[l].lba < |m|
    requires forall v :: 0 <= v < |m| ==> UsedCount(locs, v) == if m[v].used then 1 else 0
    ensures Consistent(Reconcile(m, locs), locs)
  {
    forall l | 0 <= l < |locs| && locs[l].used
      ensures SlotFor(locs, locs[l].lba) == Some(l)
    {
      UsedCountPositive(locs, locs[l].lba, l);
      SlotForUnique(locs, locs[l].lba, l);
    }
  }

  // ---------------------------------------------------------------------
  // Relocation

  /** Slot `x` is one of those `remove_LBA_locations` drops. */
  predicate Dropped(x: LBALocation, removed: set<nat>) {
    x.used && x.lba in removed
  }

  /** The location index after `remove_LBA_locations`: the used slots of
      the removed LBAs are gone, every other slot (used or not) is kept in
      its original order. */
  function Without(locs: seq<LBALocation>, removed: set<nat>): (r: seq<LBALocation>)
    ensures |r| <= |locs|
    ensures forall k :: 0 <= k < |r| ==> !Dropped(r[k], removed)
  {
    if locs == [] then []
    else Without(locs[..|locs| - 1], removed) + (if Dropped(locs[|locs| - 1], removed) then [] else [locs[|locs| - 1]])
  }

  lemma {:induction false} WithoutConcat(a: seq<LBALocation>, b: seq<LBALocation>, removed: set<nat>)
    ensures Without(a + b, removed) == Without(a, removed) + Without(b, removed)
  {
    if b == [] {
      assert a + b == a;
    } else {
      var b' := b[..|b| - 1];
      assert (a + b)[..|a + b| - 1] == a + b';
      WithoutConcat(a, b', removed);
    }
  }

  /** The state of the compaction loop of `remove_LBA_locations` after it
      has looked at the first `i` slots of `orig`: the `w` kept ones are
      packed at the front of `cur`, and the rest of `cur` is the original. */
  predicate Compacted(orig: seq<LBALocation>, cur: seq<LBALocation>, removed: set<nat>, i: nat, w: nat) {
    i <= |orig| == |cur| && w <= i && w == |Without(orig[..i], removed)|
    && cur[..w] == Without(orig[..i], removed) && cur[w..] == orig[w..]
  }

  /** One step of that loop: the slot it looks at is still the original. */
  lemma CompactLook(orig: seq<LBALocation>, cur: seq<LBALocation>, removed: set<nat>, i: nat, w: nat)
    requires Compacted(orig, cur, removed, i, w) && i < |orig|
    ensures cur[i] == orig[i]
  {
    assert cur[i] == cur[w..][i - w];
  }

  /** A dropped slot is skipped. */
  lemma CompactSkip(orig: seq<LBALocation>, cur: seq<LBALocation>, removed: set<nat>, i: nat, w: nat)
    requires Compacted(orig, cur, removed, i, w) && i < |orig|
    requires Dropped(orig[i], removed)
    ensures Compacted(orig, cur, removed, i + 1, w)
  {
    assert orig[..i + 1][..i] == orig[..i];
  }

  /** A kept slot is written to the first free position. */
  lemma CompactKeep(orig: seq<LBALocation>, cur: seq<LBALocation>, removed: set<nat>, i: nat, w: nat)
    requires Compacted(orig, cur, removed, i, w) && i < |orig|
    requires !Dropped(orig[i], removed)
    ensures Compacted(orig, cur[w := orig[i]], removed, i + 1, w + 1)
  {
    assert orig[..i + 1][..i] == orig[..i];
    var cur' := cur[w := orig[i]];
    assert cur'[..w + 1] == cur[..w] + [orig[i]];
  }

  /** At the end of that loop the kept slots fill the front, followed by
      what was there before. */
  lemma CompactDone(orig: seq<LBALocation>, cur: seq<LBALocation>, removed: set<nat>, w: nat)
    requires Compacted(orig, cur, removed, |orig|, w)
    ensures w == |Without(orig, removed)|
    ensures cur == Without(orig, removed) + orig[w..]
  {
    assert orig[..|orig|] == orig;
    assert cur == cur[..w] + cur[w..];
  }

  /** Compaction keeps a slot list with nothing to drop as it is. */
  lemma {:induction false} WithoutNothingDropped(s: seq<LBALocation>, removed: set<nat>)
    requires forall k :: 0 <= k < |s| ==> !Dropped(s[k], removed)
    ensures Without(s, removed) == s
  {
    if s != [] {
      WithoutNothingDropped(s[..|s| - 1], removed);
    }
  }

  /** Every slot of the compacted index names an LBA some slot named before. */
  lemma {:induction false} WithoutBounded(s: seq<LBALocation>, removed: set<nat>, bound: nat)
    requires forall k :: 0 <= k < |s| ==> s[k].lba < bound
    ensures forall k :: 0 <= k < |Without(s, removed)| ==> Without(s, removed)[k].lba < bound
  {
    if s != [] {
      WithoutBounded(s[..|s| - 1], removed, bound);
    }
  }

  lemma {:induction false} UsedCountWithout(s: seq<LBALocation>, removed: set<nat>, v: nat)
    ensures UsedCount(Without(s, removed), v) == if v in removed then 0 else UsedCount(s, v)
  {
    if s != [] {
      var s' := s[..|s| - 1];
      var x := s[|s| - 1];
      UsedCountWithout(s', removed, v);
      UsedCountConcat(Without(s', removed), if Dropped(x, removed) then [] else [x], v);
    }
  }

  lemma {:induction false} WithoutOneLength(s: seq<LBALocation>, v: nat)
    ensures |Without(s, {v})| == |s| - UsedCount(s, v)
  {
    if s != [] {
      WithoutOneLength(s[..|s| - 1], v);
    }
  }

  lemma {:induction false} WithoutUnion(s: seq<LBALocation>, a: set<nat>, b: set<nat>)
    ensures Without(s, a + b) == Without(Without(s, a), b)
  {
    if s != [] {
      var s' := s[..|s| - 1];
      var x := s[|s| - 1];
      WithoutUnion(s', a, b);
      WithoutConcat(Without(s', a), if Dropped(x, a) then [] else [x], b);
    }
  }

  /** Removing `L`, whose LBAs each occupy exactly one slot, shortens the location index by `|L|`. */
  lemma {:induction false} WithoutLength(s: seq<LBALocation>, L: seq<nat>)
    requires Distinct(L)
    requires forall k :: 0 <= k < |L| ==> UsedCount(s, L[k]) == 1
    ensures |Without(s, Members(L))| == |s| - |L|
  {
    if L == [] {
      assert Members(L) == {};
      WithoutNothingDropped(s, {});
    } else {
      var L' := L[..|L| - 1];
      var v := L[|L| - 1];
      assert Members(L) == Members(L') + {v};
      assert v !in Members(L');
      WithoutLength(s, L');
      WithoutUnion(s, Members(L'), {v});
      WithoutOneLength(Without(s, Members(L')), v);
      UsedCountWithout(s, Members(L'), v);
    }
  }

  /** The slots `change_locations` inserts: one used slot per listed LBA, in list order. */
  function Block(L: seq<nat>): (b: seq<LBALocation>)
    ensures |b| == |L|
    ensures forall k :: 0 <= k < |L| ==> b[k] == LBALocation(L[k], true)
  {
    seq(|L|, k requires 0 <= k < |L| => LBALocation(L[k], true))
  }

  lemma {:induction false} UsedCountBlock(L: seq<nat>, v: nat)
    requires Distinct(L)
    ensures UsedCount(Block(L), v) == if v in L then 1 else 0
  {
    if L != [] {
      var L' := L[..|L| - 1];
      assert Block(L)[..|L| - 1] == Block(L');
      UsedCountBlock(L', v);
    }
  }

  /** The location index after `change_locations(L, start)`: compacted
      without `L`, then the block for `L` inserted before position `start`. */
  function Relocate(locs: seq<LBALocation>, L: seq<nat>, start: nat): (r: seq<LBALocation>)
    requires start <= |Without(locs, Members(L))|
    ensures |r| == |Without(locs, Members(L))| + |L|
  {
    var c := Without(locs, Members(L));
    c[..start] + Block(L) + c[start..]
  }

  /** The listed LBAs land in consecutive slots, in list order, from `start`. */
  lemma {:induction false} RelocatePlacesBlock(locs: seq<LBALocation>, L: seq<nat>, start: nat, k: nat)
    requires start <= |Without(locs, Members(L))|
    requires k < |L|
    ensures Relocate(locs, L, start)[start + k] == LBALocation(L[k], true)
  {
  }

  /** The position a kept slot takes: its rank among the kept slots, shifted past the block when at or after `start`. */
  function Shifted(rank: nat, start: nat, n: nat): (p: nat)
    ensures p == rank || p == rank + n
    ensures p < start <==> rank < start
  {
    if rank < start then rank else rank + n
  }

  /** Every kept slot `i` moves to the compacted rank of `i`, shifted past the block. */
  lemma {:induction false} RelocateMovesKept(locs: seq<LBALocation>, L: seq<nat>, start: nat, i: nat)
    requires start <= |Without(locs, Members(L))|
    requires i < |locs| && !Dropped(locs[i], Members(L))
    ensures |Without(locs[..i], Members(L))| < |Without(locs, Members(L))|
    ensures Relocate(locs, L, start)[Shifted(|Without(locs[..i], Members(L))|, start, |L|)] == locs[i]
  {
    var S := Members(L);
    var rank := |Without(locs[..i], S)|;
    assert locs[..i + 1][..i] == locs[..i];
    assert Without(locs[..i + 1], S) == Without(locs[..i], S) + [locs[i]];
    assert locs == locs[..i + 1] + locs[i + 1..];
    WithoutConcat(locs[..i + 1], locs[i + 1..], S);
    var c := Without(locs, S);
    assert c[rank] == locs[i];
  }

  /** Dropping the listed LBAs from the new layout gives back the compacted
      old layout: the kept slots, used or not, keep their relative order
      and the gaps between them. */
  lemma {:induction false} RelocateKeepsSurvivorOrder(locs: seq<LBALocation>, L: seq<nat>, start: nat)
    requires start <= |Without(locs, Members(L))|
    ensures Without(Relocate(locs, L, start), Members(L)) == Without(locs, Members(L))
  {
    var S := Members(L);
    var c := Without(locs, S);
    var front, back, b := c[..start], c[start..], Block(L);
    KeptSlices(c, S, start);
    assert Without(b, S) == [] by {
      forall k | 0 <= k < |b| ensures Dropped(b[k], S) {
        assert L[k] in L;
      }
      WithoutAllDropped(b, S);
    }
    assert Relocate(locs, L, start) == (front + b) + back;
    calc {
      Without((front + b) + back, S);
    == { WithoutConcat(front + b, back, S); }
      Without(front + b, S) + Without(back, S);
    == { WithoutConcat(front, b, S); }
      front + [] + back;
    == { assert c == front + back; }
      c;
    }
  }

  /** Both parts of a slot list with nothing to drop have nothing to drop. */
  lemma KeptSlices(c: seq<LBALocation>, removed: set<nat>, start: nat)
    requires start <= |c|
    requires forall k :: 0 <= k < |c| ==> !Dropped(c[k], removed)
    ensures Without(c[..start], removed) == c[..start]
    ensures Without(c[start..], removed) == c[start..]
  {
    var front, back := c[..start], c[start..];
    forall k | 0 <= k < |front| ensures !Dropped(front[k], removed) {
      assert front[k] == c[k];
    }
    forall k | 0 <= k < |back| ensures !Dropped(back[k], removed) {
      assert back[k] == c[start + k];
    }
    WithoutNothingDropped(front, removed);
    WithoutNothingDropped(back, removed);
  }

  lemma {:induction false} WithoutAllDropped(s: seq<LBALocation>, removed: set<nat>)
    requires forall k :: 0 <= k < |s| ==> Dropped(s[k], removed)
    ensures Without(s, removed) == []
  {
    if s != [] {
      WithoutAllDropped(s[..|s| - 1], removed);
    }
  }

  /** Relocating distinct used LBAs keeps the size of the location index,
      and every LBA still occupies as many used slots as before. */
  lemma {:induction false} RelocateCounts(m: seq<BlockLBA>, locs: seq<LBALocation>, L: seq<nat>, start: nat)
    requires Consistent(m, locs)
    requires Distinct(L) && forall k :: 0 <= k < |L| ==> L[k] < |m| && m[L[k]].used
    requires start + |L| <= |locs|
    ensures |Without(locs, Members(L))| == |locs| - |L|
    ensures |Relocate(locs, L, start)| == |locs|
    ensures forall l :: 0 <= l < |locs| ==> Relocate(locs, L, start)[l].lba < |m|
    ensures forall v :: UsedCount(Relocate(locs, L, start), v) == UsedCount(locs, v)
  {
    var S := Members(L);
    forall k | 0 <= k < |L| ensures UsedCount(locs, L[k]) == 1 {
      ConsistentCounts(m, locs, L[k]);
    }
    WithoutLength(locs, L);
    var c := Without(locs, S);
    var r := Relocate(locs, L, start);
    WithoutBounded(locs, S, |m|);
    forall v ensures UsedCount(r, v) == UsedCount(locs, v) {
      assert c == c[..start] + c[start..];
      UsedCountConcat(c[..start] + Block(L), c[start..], v);
      UsedCountConcat(c[..start], Block(L), v);
      UsedCountConcat(c[..start], c[start..], v);
      UsedCountWithout(locs, S, v);
      UsedCountBlock(L, v);
      if v in S {
        var k :| 0 <= k < |L| && L[k] == v;
        ConsistentCounts(m, locs, v);
      }
    }
  }

  /** After relocation and repair the two indexes agree again. */
  lemma {:induction false} RelocateConsistent(m: seq<BlockLBA>, locs: seq<LBALocation>, L: seq<nat>, start: nat)
    requires Consistent(m, locs)
    requires Distinct(L) && forall k :: 0 <= k < |L| ==> L[k] < |m| && m[L[k]].used
    requires start + |L| <= |locs|
    ensures |Without(locs, Members(L))| == |locs| - |L|
    ensures Consistent(Reconcile(m, Relocate(locs, L, start)), Relocate(locs, L, start))
  {
    RelocateCounts(m, locs, L, start);
    var r := Relocate(locs, L, start);
    forall v | 0 <= v < |m| ensures UsedCount(r, v) == if m[v].used then 1 else 0 {
      ConsistentCounts(m, locs, v);
    }
    ReconcileRestores(m, r);
  }

  /** `change_locations` keeps the trace set well formed, moves the listed
      LBAs to `start`, `start + 1`, ... and every other used LBA to its rank
      among the surviving slots, shifted past the block. */
  lemma {:induction false} RelocateKeeps(sq: seq<Line>, m: seq<BlockLBA>, locs: seq<LBALocation>, L: seq<nat>, start: nat)
    requires Wellformed(sq, m, locs)
    requires Distinct(L) && forall k :: 0 <= k < |L| ==> L[k] < |m| && m[L[k]].used
    requires start + |L| <= |locs|
    ensures |Without(locs, Members(L))| == |locs| - |L|
    ensures Wellformed(sq, Reconcile(m, Relocate(locs, L, start)), Relocate(locs, L, start))
    ensures forall k :: 0 <= k < |L| ==> Reconcile(m, Relocate(locs, L, start))[L[k]].location == start + k
    ensures forall i :: 0 <= i < |locs| && locs[i].used && locs[i].lba !in L ==>
      Reconcile(m, Relocate(locs, L, start))[locs[i].lba].location == Shifted(|Without(locs[..i], Members(L))|, start, |L|)
  {
    RelocateCounts(m, locs, L, start);
    RelocateConsistent(m, locs, L, start);
    var r := Relocate(locs, L, start);
    var m' := Reconcile(m, r);
    ChainedIgnoresLocations(sq, m, m');
    forall k | 0 <= k < |L| ensures m'[L[k]].location == start + k {
      RelocatePlacesBlock(locs, L, start, k);
    }
    forall i | 0 <= i < |locs| && locs[i].used && locs[i].lba !in L
      ensures m'[locs[i].lba].location == Shifted(|Without(locs[..i], Members(L))|, start, |L|)
    {
      RelocateMovesKept(locs, L, start, i);
    }
  }

  /** When the used locations are exactly 0..u-1 and the block lands inside
      that range, the used locations are still exactly 0..u-1 afterwards. */
  lemma {:induction false} RelocateKeepsUsedPrefix(m: seq<BlockLBA>, locs: seq<LBALocation>, L: seq<nat>, start: nat, u: nat)
    requires Consistent(m, locs)
    requires Distinct(L) && forall k :: 0 <= k < |L| ==> L[k] < |m| && m[L[k]].used
    requires u <= |locs| && forall l :: 0 <= l < |locs| ==> (locs[l].used <==> l < u)
    requires start + |L| <= u
    ensures |Without(locs, Members(L))| == |locs| - |L|
    ensures |Relocate(locs, L, start)| == |locs|
    ensures forall l :: 0 <= l < |locs| ==> (Relocate(locs, L, start)[l].used <==> l < u)
  {
    var S := Members(L);
    RelocateCounts(m, locs, L, start);
    assert locs == locs[..u] + locs[u..];
    WithoutConcat(locs[..u], locs[u..], S);
    WithoutNothingDropped(locs[u..], S);
    var c := Without(locs, S);
    var front := Without(locs[..u], S);
    assert |front| == u - |L|;
    WithoutKeepsUsed(locs[..u], S);
    var r := Relocate(locs, L, start);
    forall l | 0 <= l < |locs| ensures (r[l].used <==> l < u) {
      if l < start {
        assert r[l] == front[l];
      } else if l < start + |L| {
      } else {
        assert r[l] == c[l - |L|];
        if l < u {
          assert c[l - |L|] == front[l - |L|];
        } else {
          assert c[l - |L|] == locs[u..][l - |L| - |front|];
        }
      }
    }
  }

  /** Compacting slots that are all used leaves slots that are all used. */
  lemma {:induction false} WithoutKeepsUsed(s: seq<LBALocation>, removed: set<nat>)
    requires forall k :: 0 <= k < |s| ==> s[k].used
    ensures forall k :: 0 <= k < |Without(s, removed)| ==> Without(s, removed)[k].used
  {
    if s != [] {
      WithoutKeepsUsed(s[..|s| - 1], removed);
    }
  }
}
