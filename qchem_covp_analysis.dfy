/** Orbital index bookkeeping for complementary occupied-virtual pairs
    (qchem_covp_analysis.py). The COVP orbital energies come in four blocks:
    fragment 1 occupied, fragment 2 occupied, fragment 2 virtual, fragment 1
    virtual. The block starts are found from repeated energies, the
    per-fragment counts from the starts, and each COVP entry of the two
    transfer directions is given its occupied and virtual orbital index. */
module QChemCovpAnalysis {
  import opened Py

  /** The occupied and virtual orbital counts of the two fragments. */
  datatype Counts = Counts(nOcc1: int, nOcc2: int, nVirt1: int, nVirt2: int)

  /** `get_n_occ_virt_per_fragment`: each count is the distance between two
      consecutive block starts, the last one running to `n_mo`. The first
      start is not used. */
  function GetNOccVirtPerFragment(idxOcc1: int, idxOcc2: int, idxVirt2: int, idxVirt1: int, nMo: int): (r: Counts)
    ensures r.nOcc1 + r.nOcc2 + r.nVirt1 + r.nVirt2 == nMo
    ensures r.nOcc1 == idxOcc2
    ensures r.nOcc1 + r.nOcc2 == idxVirt2
    ensures r.nOcc1 + r.nOcc2 + r.nVirt1 == idxVirt1
    ensures 0 <= idxOcc2 <= idxVirt2 <= idxVirt1 <= nMo ==>
      r.nOcc1 >= 0 && r.nOcc2 >= 0 && r.nVirt1 >= 0 && r.nVirt2 >= 0
  {
    var nOcc1 := idxOcc2;
    var nOcc2 := idxVirt2 - nOcc1;
    var nVirt1 := idxVirt1 - (nOcc1 + nOcc2);
    var nVirt2 := nMo - (nOcc1 + nOcc2 + nVirt1);
    Counts(nOcc1, nOcc2, nVirt1, nVirt2)
  }

  // ---------------------------------------------------------------------
  // parse_energy_block

  /** `np.where(energies == v)[0]`: the positions holding `v`, ascending. */
  function Positions(energies: seq<real>, v: real): seq<int>
    decreases |energies|
  {
    if |energies| == 0 then []
    else
      Positions(energies[..|energies| - 1], v) + (if energies[|energies| - 1] == v then [|energies| - 1] else [])
  }

  /** Exactly the positions holding `v`, in increasing order. */
  lemma {:induction false} PositionsMeaning(energies: seq<real>, v: real)
    ensures forall k :: 0 <= k < |Positions(energies, v)| ==>
      0 <= Positions(energies, v)[k] < |energies| && energies[Positions(energies, v)[k]] == v
    ensures forall p :: 0 <= p < |energies| && energies[p] == v ==> p in Positions(energies, v)
    ensures forall a, b :: 0 <= a < b < |Positions(energies, v)| ==> Positions(energies, v)[a] < Positions(energies, v)[b]
    decreases |energies|
  {
    if |energies| > 0 {
      var init := energies[..|energies| - 1];
      PositionsMeaning(init, v);
      var front := Positions(init, v);
      var r := Positions(energies, v);
      assert r == front + (if energies[|energies| - 1] == v then [|energies| - 1] else []);
      forall k | 0 <= k < |r| ensures 0 <= r[k] < |energies| && energies[r[k]] == v {
        if k < |front| {
          assert r[k] == front[k];
          assert init[front[k]] == v;
        }
      }
      forall p | 0 <= p < |energies| && energies[p] == v ensures p in r {
        if p < |energies| - 1 {
          assert init[p] == v;
          assert p in front;
        } else {
          assert r[|r| - 1] == p;
        }
      }
      forall a, b | 0 <= a < b < |r| ensures r[a] < r[b] {
        if b < |front| {
          assert r[a] == front[a] && r[b] == front[b];
        } else {
          assert r[a] == front[a];
        }
      }
    }
  }

  lemma IndexIn(r: seq<int>, x: int) returns (k: nat)
    requires x in r
    ensures k < |r| && r[k] == x
  {
    k :| k < |r| && r[k] == x;
  }

  /** The starts of the four blocks: fragment 1 occupied, fragment 2
      occupied, fragment 2 virtual (on 1), fragment 1 virtual (on 2). */
  datatype Starts = Starts(occ1: int, occ2: int, virt2: int, virt1: int)

  /** `parse_energy_block(covpenergies, n_occ_t)`. Fragment 1's occupied
      block starts at 0 and fragment 2's virtual block at `n_occ_t`; the
      energy at 0 repeats where fragment 1's virtual block starts, and the
      energy at `n_occ_t` first appears where fragment 2's occupied block
      starts. Indexing an empty array or past its end, or asking for a
      second position that is not there, raises IndexError; a second
      position of the energy at `n_occ_t` other than `n_occ_t` fails the
      assertion. */
  function ParseEnergyBlock(energies: seq<real>, nOccT: nat): (r: Result<Starts>)
    ensures |energies| == 0 || nOccT >= |energies| ==> r == Err(IndexError)
    ensures r.Err? ==> r.exc == IndexError || r.exc == AssertionError
    ensures r.Ok? ==> r.value.occ1 == 0 && r.value.virt2 == nOccT
    ensures r.Ok? ==>
      (0 <= r.value.occ2 < nOccT < |energies|
       && energies[r.value.occ2] == energies[nOccT]
       && (forall p :: 0 <= p < nOccT && p != r.value.occ2 ==> energies[p] != energies[nOccT]))
    ensures r.Ok? ==>
      (0 < r.value.virt1 < |energies| && energies[r.value.virt1] == energies[0]
       && (forall p :: 0 < p < r.value.virt1 ==> energies[p] != energies[0]))
  {
    if |energies| == 0 || nOccT >= |energies| then Err(IndexError)
    else
      var f1 := Positions(energies, energies[0]);
      var f2 := Positions(energies, energies[nOccT]);
      PositionsMeaning(energies, energies[0]);
      PositionsMeaning(energies, energies[nOccT]);
      assert 0 in f1 && nOccT in f2;
      var idxOcc2 := f2[0];
      if |f1| < 2 then Err(IndexError)
      else
        var idxVirt1 := f1[1];
        if |f2| < 2 then Err(IndexError)
        else if f2[1] != nOccT then Err(AssertionError)
        else
          assert f1[0] == 0 by {
            var k0 := IndexIn(f1, 0);
            assert f1[0] <= f1[k0];
          }
          forall p | 0 <= p < nOccT && p != idxOcc2 ensures energies[p] != energies[nOccT] {
            if energies[p] == energies[nOccT] {
              var k := IndexIn(f2, p);
            }
          }
          forall p | 0 < p < idxVirt1 ensures energies[p] != energies[0] {
            if energies[p] == energies[0] {
              var k := IndexIn(f1, p);
            }
          }
          Ok(Starts(0, idxOcc2, nOccT, idxVirt1))
  }

  /** The energy at `i` occurs at some other position too. */
  predicate Repeats(energies: seq<real>, i: int)
    requires 0 <= i < |energies|
  {
    exists p :: 0 <= p < |energies| && p != i && energies[p] == energies[i]
  }

  /** Exactly one position before `i` holds the energy at `i`: `i` is that
      energy's second position. */
  predicate SecondOccurrence(energies: seq<real>, i: int)
    requires 0 <= i < |energies|
  {
    exists q :: 0 <= q < i && energies[q] == energies[i] &&
      forall p :: 0 <= p < i && energies[p] == energies[i] ==> p == q
  }

  /** `np.where` finds at least two positions exactly when the energy repeats. */
  lemma PositionsRepeat(energies: seq<real>, i: int)
    requires 0 <= i < |energies|
    ensures |Positions(energies, energies[i])| >= 2 <==> Repeats(energies, i)
  {
    var f := Positions(energies, energies[i]);
    PositionsMeaning(energies, energies[i]);
    if |f| >= 2 {
      var p := if f[0] != i then f[0] else f[1];
      assert p != i && energies[p] == energies[i];
    }
    if Repeats(energies, i) {
      var p :| 0 <= p < |energies| && p != i && energies[p] == energies[i];
      var a := IndexIn(f, p);
      var b := IndexIn(f, i);
      assert a != b;
    }
  }

  /** The second position `np.where` finds is `i` exactly when `i` is the
      second occurrence of its energy. */
  lemma PositionsSecond(energies: seq<real>, i: int)
    requires 0 <= i < |energies|
    ensures (|Positions(energies, energies[i])| >= 2 && Positions(energies, energies[i])[1] == i)
      <==> SecondOccurrence(energies, i)
  {
    var f := Positions(energies, energies[i]);
    PositionsMeaning(energies, energies[i]);
    if |f| >= 2 && f[1] == i {
      var q := f[0];
      forall p | 0 <= p < i && energies[p] == energies[i] ensures p == q {
        var k := IndexIn(f, p);
      }
      assert 0 <= q < i && energies[q] == energies[i];
    }
    if SecondOccurrence(energies, i) {
      var q :| 0 <= q < i && energies[q] == energies[i] &&
        forall p :: 0 <= p < i && energies[p] == energies[i] ==> p == q;
      var a := IndexIn(f, q);
      var b := IndexIn(f, i);
    }
  }

  /** When `parse_energy_block` succeeds, and which exception it raises
      otherwise, stated on the energies alone: IndexError when `n_occ_t` is
      past the end or the energy at 0 or at `n_occ_t` occurs only once;
      AssertionError when both repeat but `n_occ_t` is not the second
      occurrence of its energy; success otherwise. */
  lemma ParseEnergyBlockOutcome(energies: seq<real>, nOccT: nat)
    ensures ParseEnergyBlock(energies, nOccT) == Err(IndexError) <==>
      nOccT >= |energies| || !Repeats(energies, 0) || !Repeats(energies, nOccT)
    ensures ParseEnergyBlock(energies, nOccT) == Err(AssertionError) <==>
      nOccT < |energies| && Repeats(energies, 0) && Repeats(energies, nOccT) && !SecondOccurrence(energies, nOccT)
    ensures ParseEnergyBlock(energies, nOccT).Ok? <==>
      nOccT < |energies| && Repeats(energies, 0) && SecondOccurrence(energies, nOccT)
  {
    if nOccT < |energies| {
      PositionsRepeat(energies, 0);
      PositionsRepeat(energies, nOccT);
      PositionsSecond(energies, nOccT);
    }
  }

  // ---------------------------------------------------------------------
  // determine_fragment_indices

  /** The label `determine_fragment_indices` gives orbital `idx`. */
  function CovpLabel(idx: int, o: Starts): string
  {
    if o.occ1 <= idx < o.occ2 then "1 -> 2 occ"
    else if o.occ2 <= idx < o.virt2 then "2 -> 1 occ"
    else if o.virt2 <= idx < o.virt1 then "2 -> 1 virt"
    else "1 -> 2 virt"
  }

  /** With the starts in order, the four labels cut the orbitals into the
      four half-open blocks; everything outside the first three blocks,
      including the indices below the first start, is `1 -> 2 virt`. */
  lemma LabelRegions(idx: int, o: Starts)
    requires o.occ1 <= o.occ2 <= o.virt2 <= o.virt1
    ensures CovpLabel(idx, o) == "1 -> 2 occ" <==> o.occ1 <= idx < o.occ2
    ensures CovpLabel(idx, o) == "2 -> 1 occ" <==> o.occ2 <= idx < o.virt2
    ensures CovpLabel(idx, o) == "2 -> 1 virt" <==> o.virt2 <= idx < o.virt1
    ensures CovpLabel(idx, o) == "1 -> 2 virt" <==> idx < o.occ1 || o.virt1 <= idx
  {
    assert "1 -> 2 occ"[0] != "2 -> 1 occ"[0];
    assert "1 -> 2 occ"[7] != "1 -> 2 virt"[7];
    assert "2 -> 1 occ"[7] != "2 -> 1 virt"[7];
    assert "1 -> 2 occ"[0] != "2 -> 1 virt"[0];
    assert "2 -> 1 occ"[0] != "1 -> 2 virt"[0];
    assert "2 -> 1 virt"[0] != "1 -> 2 virt"[0];
  }

  /** The `map_idx_to_covp` loop over `range(n_orb_t)`. */
  method MapIdxToCovp(nOrbT: int, o: Starts) returns (m: map<int, string>)
    ensures Labelled(m, nOrbT, o)
  {
    m := map[];
    var idx := 0;
    while idx < nOrbT
      invariant 0 <= idx <= nOrbT || (nOrbT < 0 && idx == 0)
      invariant forall j :: j in m <==> 0 <= j < idx
      invariant forall j :: j in m ==> m[j] == CovpLabel(j, o)
    {
      m := m[idx := CovpLabel(idx, o)];
      idx := idx + 1;
    }
  }

  /** A COVP entry: its 1-based index in the fragment block, and the two
      orbital indices `determine_fragment_indices` stores in it. */
  class CovpEntry {
    var index: int
    var orbOcc: int
    var orbVirt: int

    constructor (index: int)
      ensures this.index == index && orbOcc == 0 && orbVirt == 0
    {
      this.index := index;
      orbOcc := 0;
      orbVirt := 0;
    }
  }

  /** Every entry's orbitals are its index shifted by the two offsets. */
  predicate Assigned(entries: seq<CovpEntry>, occOffset: int, virtOffset: int)
    reads set e | e in entries
  {
    forall k :: 0 <= k < |entries| ==>
      entries[k].orbOcc == entries[k].index + occOffset && entries[k].orbVirt == entries[k].index + virtOffset
  }

  /** The same, for the entries that are not also in `others`. */
  predicate AssignedOutside(entries: seq<CovpEntry>, others: seq<CovpEntry>, occOffset: int, virtOffset: int)
    reads set e | e in entries
  {
    forall k :: 0 <= k < |entries| && entries[k] !in others ==>
      entries[k].orbOcc == entries[k].index + occOffset && entries[k].orbVirt == entries[k].index + virtOffset
  }

  /** `m` labels exactly the orbitals `0 .. n-1`, each by its block. */
  ghost predicate Labelled(m: map<int, string>, n: int, o: Starts)
  {
    (forall idx :: idx in m <==> 0 <= idx < n) && (forall idx :: idx in m ==> m[idx] == CovpLabel(idx, o))
  }

  /** One of the two loops over the entries of a direction: the occupied
      orbital is the index shifted by `occOffset`, the virtual one the index
      shifted by `virtOffset`. Entries occurring more than once get the same
      values each time. */
  method AssignOrbitals(entries: seq<CovpEntry>, occOffset: int, virtOffset: int)
    modifies set e | e in entries
    ensures forall k :: 0 <= k < |entries| ==> entries[k].index == old(entries[k].index)
    ensures Assigned(entries, occOffset, virtOffset)
  {
    var i := 0;
    while i < |entries|
      invariant 0 <= i <= |entries|
      invariant forall k :: 0 <= k < |entries| ==> entries[k].index == old(entries[k].index)
      invariant forall k :: 0 <= k < i ==>
        entries[k].orbOcc == entries[k].index + occOffset && entries[k].orbVirt == entries[k].index + virtOffset
    {
      var entry := entries[i];
      entry.orbOcc := entry.index + occOffset;
      entry.orbVirt := entry.index + virtOffset;
      i := i + 1;
    }
  }

  /** The counts of one fragment, or of both together. */
  datatype BlockCounts = BlockCounts(nCovp: int, nOcc: int, nVirt: int, nOrb: int)

  datatype FragmentIndices = FragmentIndices(one: BlockCounts, two: BlockCounts, total: BlockCounts,
                                             mapIdxToCovp: map<int, string>)

  /** The orbitals both loops of `determine_fragment_indices` leave in the
      entries: a 2 -> 1 entry's from the second loop, a 1 -> 2 entry's from
      the first unless the second overwrote it. */
  predicate EntriesAssigned(fragment1To2: seq<CovpEntry>, fragment2To1: seq<CovpEntry>, c: Counts)
    reads set e | e in fragment1To2
    reads set e | e in fragment2To1
  {
    Assigned(fragment2To1, c.nOcc1, c.nOcc1 + c.nOcc2)
    && AssignedOutside(fragment1To2, fragment2To1, 0, c.nOcc1 + c.nOcc2 + c.nVirt1)
  }

  /** The two loops of `determine_fragment_indices`, 1 -> 2 first. An entry
      listed in both directions keeps the values of the second loop. */
  method AssignBothDirections(fragment1To2: seq<CovpEntry>, fragment2To1: seq<CovpEntry>, c: Counts)
    modifies set e | e in fragment1To2
    modifies set e | e in fragment2To1
    ensures EntriesAssigned(fragment1To2, fragment2To1, c)
  {
    AssignOrbitals(fragment1To2, 0, c.nOcc1 + c.nOcc2 + c.nVirt1);
    label firstLoop:
    AssignOrbitals(fragment2To1, c.nOcc1, c.nOcc1 + c.nOcc2);
    forall k | 0 <= k < |fragment1To2| && fragment1To2[k] !in fragment2To1
      ensures fragment1To2[k].orbOcc == fragment1To2[k].index
      ensures fragment1To2[k].orbVirt == fragment1To2[k].index + c.nOcc1 + c.nOcc2 + c.nVirt1
    {
      assert unchanged@firstLoop(fragment1To2[k]);
    }
  }

  /** `determine_fragment_indices`. The three count assertions of the source
      always hold: they follow from the block starts. */
  method DetermineFragmentIndices(fragment1To2: seq<CovpEntry>, fragment2To1: seq<CovpEntry>,
                                  covpEnergies: seq<real>, nMo: int, idxHomo: nat)
    returns (r: Result<FragmentIndices>)
    modifies set e | e in fragment1To2
    modifies set e | e in fragment2To1
    ensures r.Err? ==> ParseEnergyBlock(covpEnergies, idxHomo + 1) == Err(r.exc)
    ensures r.Err? ==> forall e :: e in fragment1To2 || e in fragment2To1 ==> unchanged(e)
    ensures r.Ok? ==> ParseEnergyBlock(covpEnergies, idxHomo + 1).Ok?
    ensures r.Ok? ==>
      var o := ParseEnergyBlock(covpEnergies, idxHomo + 1).value;
      var c := GetNOccVirtPerFragment(o.occ1, o.occ2, o.virt2, o.virt1, nMo);
      r.value.one == BlockCounts(|fragment1To2|, c.nOcc1, c.nVirt1, c.nOcc1 + c.nVirt1)
      && r.value.two == BlockCounts(|fragment2To1|, c.nOcc2, c.nVirt2, c.nOcc2 + c.nVirt2)
      && r.value.total.nOcc == r.value.one.nOcc + r.value.two.nOcc
      && r.value.total.nVirt == r.value.one.nVirt + r.value.two.nVirt
      && r.value.total.nOrb == r.value.one.nOrb + r.value.two.nOrb == nMo
      && r.value.total.nCovp == |fragment1To2| + |fragment2To1|
      && Labelled(r.value.mapIdxToCovp, nMo, o)
    ensures r.Ok? ==>
      var o := ParseEnergyBlock(covpEnergies, idxHomo + 1).value;
      EntriesAssigned(fragment1To2, fragment2To1, GetNOccVirtPerFragment(o.occ1, o.occ2, o.virt2, o.virt1, nMo))
  {
    var nCovp1 := |fragment1To2|;
    var nCovp2 := |fragment2To1|;
    var nCovpT := nCovp1 + nCovp2;
    var nOccT := idxHomo + 1;
    var nVirtT := nMo - nOccT;
    var nOrbT := nOccT + nVirtT;
    var parsed := ParseEnergyBlock(covpEnergies, nOccT);
    if parsed.Err? {
      return Err(parsed.exc);
    }
    var o := parsed.value;
    var c := GetNOccVirtPerFragment(o.occ1, o.occ2, o.virt2, o.virt1, nOrbT);
    var nOrb1 := c.nOcc1 + c.nVirt1;
    var nOrb2 := c.nOcc2 + c.nVirt2;
    AssignBothDirections(fragment1To2, fragment2To1, c);
    var labels := MapIdxToCovp(nOrbT, o);
    r := Ok(FragmentIndices(BlockCounts(nCovp1, c.nOcc1, c.nVirt1, nOrb1),
                            BlockCounts(nCovp2, c.nOcc2, c.nVirt2, nOrb2),
                            BlockCounts(nCovpT, nOccT, nVirtT, nOrbT),
                            labels));
  }

  /** The orbital indices of an entry land in the blocks its direction
      names, whenever the entry's index fits its block and the virtual
      blocks are in order: a 1 -> 2 entry's orbitals are labelled
      `1 -> 2 occ` and `1 -> 2 virt`, a 2 -> 1 entry's `2 -> 1 occ` and
      `2 -> 1 virt`. */
  lemma EntryLabelsMatchDirection(energies: seq<real>, nOccT: nat, nMo: int, index: int)
    requires ParseEnergyBlock(energies, nOccT).Ok?
    requires ParseEnergyBlock(energies, nOccT).value.virt2 <= ParseEnergyBlock(energies, nOccT).value.virt1
    ensures var o := ParseEnergyBlock(energies, nOccT).value;
      var c := GetNOccVirtPerFragment(o.occ1, o.occ2, o.virt2, o.virt1, nMo);
      (0 <= index < c.nOcc1 ==> CovpLabel(index, o) == "1 -> 2 occ")
      && (0 <= index ==> CovpLabel(index + c.nOcc1 + c.nOcc2 + c.nVirt1, o) == "1 -> 2 virt")
      && (0 <= index < c.nOcc2 ==> CovpLabel(index + c.nOcc1, o) == "2 -> 1 occ")
      && (0 <= index < c.nVirt1 ==> CovpLabel(index + c.nOcc1 + c.nOcc2, o) == "2 -> 1 virt")
  {
  }
}
