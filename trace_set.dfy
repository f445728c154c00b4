/** A trace of LBA accesses together with the placement of every LBA on a
    one-dimensional disk. The trace is `sequence`; `mapLBA` is indexed by
    LBA and `locations` by location, and the two describe the same pairing
    of used LBAs with locations. */
module TraceSets {
  import opened Decimal
  import opened TextInput
  import opened TraceLayout
  import opened NumberLines

  class TraceSet {
    var sequence: seq<Line>
    var mapLBA: seq<BlockLBA>
    var locations: seq<LBALocation>

    /** Both indexes have the same, positive size; the `next` links and
        the first/last fields describe the trace; the two indexes agree. */
    ghost predicate Valid()
      reads this
    {
      Wellformed(sequence, mapLBA, locations)
    }

    /** A new LBA `v` may claim the location of its own number. */
    predicate SlotFreeFor(v: nat)
      reads this
    {
      (v < |mapLBA| && mapLBA[v].used) || v >= |locations| || !locations[v].used
    }

    /** An empty trace with one unused LBA entry and one unused location. */
    constructor()
      ensures Valid() && IdentityLayout(locations)
      ensures sequence == [] && mapLBA == [FreshBlock] && locations == [FreshSlot]
    {
      sequence := [];
      mapLBA := [FreshBlock];
      locations := [FreshSlot];
    }

    /** Appends an access of the LBA spelled `s`. A repeat access is linked
        from the previous last access of that LBA; the first access of an
        LBA places it at the location of its own number, after doubling
        both indexes past it when it is out of their range. */
    method Insert(s: string)
      requires Valid() && IsDigits(s)
      requires SlotFreeFor(Stoi(s))
      modifies this
      ensures Valid()
      ensures Lbas(sequence) == old(Lbas(sequence)) + [Stoi(s)]
      ensures old(IdentityLayout(locations)) ==> IdentityLayout(locations)
      ensures var v, n := Stoi(s), old(|sequence|);
        if v < old(|mapLBA|) && old(mapLBA[v].used) then
          && sequence == old(sequence)[old(mapLBA[v].last) := Line(v, Some(n))] + [Line(v, None)]
          && mapLBA == old(mapLBA)[v := old(mapLBA[v]).(last := n)]
          && locations == old(locations)
        else
          var size := if v < old(|mapLBA|) then old(|mapLBA|) else 2 * v;
          && sequence == old(sequence) + [Line(v, None)]
          && mapLBA == Grown(old(mapLBA), size, FreshBlock)[v := BlockLBA(n, n, v, true)]
          && locations == Grown(old(locations), size, FreshSlot)[v := LBALocation(v, true)]
    {
      var v := Stoi(s);
      ghost var sq0, m0, l0 := sequence, mapLBA, locations;
      var n := |sequence|;
      sequence := sequence + [Line(v, None)];
      if v >= |mapLBA| {
        mapLBA := Grown(mapLBA, 2 * v, FreshBlock);
        locations := Grown(locations, 2 * v, FreshSlot);
      }
      var block := mapLBA[v];
      if block.used {
        AppendSeenKeeps(sq0, m0, l0, v);
        sequence := sequence[block.last := Line(v, Some(n))];
        assert sequence == sq0[block.last := Line(v, Some(n))] + [Line(v, None)];
        mapLBA := mapLBA[v := block.(last := n)];
      } else {
        AppendNewKeeps(sq0, m0, l0, v, |mapLBA|);
        assert mapLBA == Grown(m0, |mapLBA|, FreshBlock);
        assert locations == Grown(l0, |mapLBA|, FreshSlot);
        mapLBA := mapLBA[v := BlockLBA(n, n, v, true)];
        locations := locations[v := LBALocation(v, true)];
      }
    }

    /** Reads one LBA per line and inserts each, in order; text after the
        last newline is not inserted. */
    method ReadIn(input: string)
      requires Valid() && IdentityLayout(locations)
      requires AllNumbers(Pieces(input, Newline))
      modifies this
      ensures Valid() && IdentityLayout(locations)
      ensures Lbas(sequence) == old(Lbas(sequence)) + Values(Pieces(input, Newline))
    {
      var current := "";
      var i := 0;
      while i < |input|
        invariant i <= |input|
        invariant Valid() && IdentityLayout(locations)
        invariant current == Pending(input[..i], Newline)
        invariant AllNumbers(Pieces(input[..i], Newline))
        invariant Lbas(sequence) == old(Lbas(sequence)) + Values(Pieces(input[..i], Newline))
      {
        ReadNumberStep(input, i);
        if input[i] == '\n' {
          IdentitySlotFree(mapLBA, locations, Stoi(current));
          ghost var before := Lbas(sequence);
          Insert(current);
          assert Lbas(sequence) == before + [Stoi(current)];
          current := "";
        } else {
          current := current + [input[i]];
        }
        i := i + 1;
      }
      assert input[..i] == input;
    }

    /** Reads one LBA per line and returns them in order, leaving the trace alone. */
    method ReadLBAs(input: string) returns (lbas: seq<nat>)
      requires AllNumbers(Pieces(input, Newline))
      ensures lbas == Values(Pieces(input, Newline))
    {
      lbas := [];
      var current := "";
      var i := 0;
      while i < |input|
        invariant i <= |input|
        invariant current == Pending(input[..i], Newline)
        invariant AllNumbers(Pieces(input[..i], Newline))
        invariant lbas == Values(Pieces(input[..i], Newline))
      {
        ReadStep(input, i, Newline);
        if input[i] == '\n' {
          HandedOver(input, i, Newline);
          ValuesAppend(Pieces(input[..i], Newline), current);
          lbas := lbas + [Stoi(current)];
          current := "";
        } else {
          current := current + [input[i]];
        }
        i := i + 1;
      }
      assert input[..i] == input;
    }

    /** The indices of all accesses to `v`, in increasing order, found by
        following the `next` links from its first access to its last. */
    method GetIndices(v: nat) returns (r: seq<nat>)
      requires LinksOf(sequence, mapLBA, v)
      ensures r == Occurrences(sequence, v)
    {
      r := [];
      var sq, m := sequence, mapLBA;
      var block := m[v];
      if block.used {
        OccurrencesNext(sq, v, -1, block.first);
        assert sq[..0] == [];
        r := [block.first];
        var index := block.first;
        var nextLine := sq[index];
        while index != block.last
          invariant block.first <= index <= block.last < |sq|
          invariant sq[index].lba == v && nextLine == sq[index]
          invariant r == Occurrences(sq[..index + 1], v)
          decreases block.last - index
        {
          FollowLink(sq, v, index, block.last);
          r := r + [nextLine.next.value];
          index := nextLine.next.value;
          nextLine := sq[index];
        }
        OccurrencesEnd(sq, v, block.last);
      } else {
        OccurrencesEnd(sq, v, -1);
        assert sq[..0] == [];
      }
    }

    /** The sum of the seek distances between consecutive accesses, at the
        current locations of their LBAs. */
    method TotalSeekDistance() returns (total: nat)
      requires forall i :: 0 <= i < |sequence| ==> sequence[i].lba < |mapLBA|
      ensures total == TotalDistance(LocationsOf(sequence, mapLBA))
    {
      var sq, m := sequence, mapLBA;
      total := 0;
      if |sq| == 0 {
        return;
      }
      var current, next := 0, 1;
      while next < |sq|
        invariant next == current + 1 && 1 <= next <= |sq|
        invariant total == TotalDistance(LocationsOf(sq[..next], m))
      {
        var currentLocation := m[sq[current].lba].location;
        var nextLocation := m[sq[next].lba].location;
        if currentLocation < nextLocation {
          total := total + (nextLocation - currentLocation);
        } else {
          total := total + (currentLocation - nextLocation);
        }
        TotalDistanceStep(sq, m, next);
        current, next := current + 1, next + 1;
      }
      assert sq[..next] == sq;
    }

    /** The hash table `remove_LBA_locations` builds first: the LBAs of `L`,
        looked up one by one in the LBA index. */
    static method LocationTable(mapLBA: seq<BlockLBA>, L: seq<nat>) returns (table: set<nat>)
      requires forall k :: 0 <= k < |L| ==> L[k] < |mapLBA|
      ensures table == Members(L)
    {
      table := {};
      var k := 0;
      while k < |L|
        invariant k <= |L|
        invariant table == Members(L[..k])
      {
        var lbaLocation := mapLBA[L[k]].location;
        MembersStep(L, k);
        table := table + {L[k]};
        k := k + 1;
      }
      assert L[..k] == L;
    }

    /** Compacts the location index without the used slots of the LBAs in
        `L`: every other slot moves up over the removed ones, keeping its
        order, and then `|L|` slots are dropped from the end. */
    method RemoveLBALocations(L: seq<nat>)
      requires forall k :: 0 <= k < |L| ==> L[k] < |mapLBA|
      requires |L| <= |locations|
      modifies this
      ensures sequence == old(sequence) && mapLBA == old(mapLBA)
      ensures var c := Without(old(locations), Members(L));
        locations == (c + old(locations)[|c|..])[..old(|locations|) - |L|]
    {
      var table := LocationTable(mapLBA, L);
      ghost var original := locations;
      var shift := 0;
      var i := 0;
      while i < |locations|
        invariant i <= |locations| == |original|
        invariant sequence == old(sequence) && mapLBA == old(mapLBA)
        invariant shift <= i && Compacted(original, locations, table, i, i - shift)
      {
        CompactLook(original, locations, table, i, i - shift);
        if locations[i].lba in table && locations[i].used {
          CompactSkip(original, locations, table, i, i - shift);
          shift := shift + 1;
        } else {
          CompactKeep(original, locations, table, i, i - shift);
          var currentLocation := locations[i];
          locations := locations[i - shift := currentLocation];
        }
        i := i + 1;
      }
      CompactDone(original, locations, table, i - shift);
      PopLocations(|L|);
    }

    /** Pops `n` slots off the end of the location index, one at a time. */
    method PopLocations(n: nat)
      requires n <= |locations|
      modifies this
      ensures sequence == old(sequence) && mapLBA == old(mapLBA)
      ensures locations == old(locations)[..old(|locations|) - n]
    {
      var j := 0;
      while j < n
        invariant j <= n
        invariant locations == old(locations)[..old(|locations|) - j]
        invariant sequence == old(sequence) && mapLBA == old(mapLBA)
      {
        locations := locations[..|locations| - 1];
        j := j + 1;
      }
    }

    /** Gives the LBAs of the used slots their slot as location, slot by slot. */
    method FixLocations()
      requires forall l :: 0 <= l < |locations| ==> locations[l].lba < |mapLBA|
      modifies this
      ensures sequence == old(sequence) && locations == old(locations)
      ensures mapLBA == Reconcile(old(mapLBA), locations)
    {
      var location := 0;
      while location < |locations|
        invariant location <= |locations|
        invariant sequence == old(sequence) && locations == old(locations)
        invariant mapLBA == Reconcile(old(mapLBA), locations[..location])
      {
        var current := locations[location].lba;
        ReconcileStep(old(mapLBA), locations[..location], locations[location]);
        assert locations[..location + 1] == locations[..location] + [locations[location]];
        if location != mapLBA[current].location && locations[location].used {
          mapLBA := mapLBA[current := mapLBA[current].(location := location)];
        }
        location := location + 1;
      }
      assert locations[..location] == locations;
    }

    /** Moves the distinct used LBAs of `L` to the consecutive locations
        `start`, `start + 1`, ..., in list order; every other slot keeps its
        relative order and the gaps between slots, shifted past the block. */
    method ChangeLocations(L: seq<nat>, start: nat)
      requires Valid()
      requires Distinct(L) && forall k :: 0 <= k < |L| ==> L[k] < |mapLBA| && mapLBA[L[k]].used
      requires start + |L| <= |locations|
      modifies this
      ensures Valid()
      ensures sequence == old(sequence)
      ensures |Without(old(locations), Members(L))| == old(|locations|) - |L|
      ensures locations == Relocate(old(locations), L, start)
      ensures mapLBA == Reconcile(old(mapLBA), locations)
      ensures forall k :: 0 <= k < |L| ==> mapLBA[L[k]].location == start + k
      ensures forall i :: 0 <= i < old(|locations|) && old(locations[i].used) && old(locations[i].lba) !in L ==>
        mapLBA[old(locations[i].lba)].location == Shifted(|Without(old(locations)[..i], Members(L))|, start, |L|)
    {
      ghost var sq0, m0, l0 := sequence, mapLBA, locations;
      RelocateKeeps(sq0, m0, l0, L, start);
      RemoveLBALocations(L);
      assert locations == Without(l0, Members(L));
      var block: seq<LBALocation> := [];
      var k := 0;
      while k < |L|
        invariant k <= |L|
        invariant block == Block(L[..k])
      {
        block := block + [LBALocation(L[k], true)];
        k := k + 1;
      }
      assert L[..k] == L;
      locations := locations[..start] + block + locations[start..];
      assert locations == Relocate(l0, L, start);
      FixLocations();
    }
  }
}
