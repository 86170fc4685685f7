/** The index sets, position maps and reference-array shapes that the test
    fixture `storage` builds once from the mechanism, and on which the
    per-state reference computation relies. */
module TestFixture {
  import opened Indexing
  import opened Mechanism

  /** `test_size`: the number of synthetic thermodynamic states. */
  const TestSize: nat := 10000

  function ThirdBodyIndices(rs: seq<Reaction>): (r: seq<nat>)
    ensures StrictlyIncreasing(r)
    ensures forall k :: 0 <= k < |r| ==> r[k] < |rs|
    ensures forall i: nat :: i in r <==> i < |rs| && (rs[i].kind.Falloff? || rs[i].kind.ChemicallyActivated? || rs[i].kind.ThreeBody?)
  {
    Select(rs, IsThirdBody)
  }

  function ReversibleIndices(rs: seq<Reaction>): (r: seq<nat>)
    ensures StrictlyIncreasing(r)
    ensures forall k :: 0 <= k < |r| ==> r[k] < |rs|
    ensures forall i: nat :: i in r <==> i < |rs| && rs[i].reversible
  {
    Select(rs, IsReversible)
  }

  function FalloffIndices(rs: seq<Reaction>): (r: seq<nat>)
    ensures StrictlyIncreasing(r)
    ensures forall i: nat :: i in r <==> i < |rs| && (rs[i].kind.Falloff? || rs[i].kind.ChemicallyActivated?)
  {
    Select(rs, IsFalloff)
  }

  function SriIndices(rs: seq<Reaction>): (r: seq<nat>)
    ensures StrictlyIncreasing(r)
    ensures forall i: nat :: i in r <==> i < |rs| && rs[i].kind in {Falloff(Sri), ChemicallyActivated(Sri)}
  {
    Select(rs, IsSriFalloff)
  }

  function TroeIndices(rs: seq<Reaction>): (r: seq<nat>)
    ensures StrictlyIncreasing(r)
    ensures forall i: nat :: i in r <==> i < |rs| && rs[i].kind in {Falloff(Troe), ChemicallyActivated(Troe)}
  {
    Select(rs, IsTroeFalloff)
  }

  /** Falloff (including chemically activated) reactions are third-body
      reactions; the SRI and Troe falloff reactions are two disjoint subsets
      of them. */
  lemma IndexSetsNest(rs: seq<Reaction>)
    ensures forall i :: i in FalloffIndices(rs) ==> i in ThirdBodyIndices(rs)
    ensures forall i :: i in SriIndices(rs) ==> i in FalloffIndices(rs)
    ensures forall i :: i in TroeIndices(rs) ==> i in FalloffIndices(rs)
    ensures forall i :: !(i in SriIndices(rs) && i in TroeIndices(rs))
  {
  }

  /** A chemically activated reaction with Troe blending is a falloff and a
      Troe reaction, so it gets a reduced-pressure row and a Troe row. */
  lemma ChemicallyActivatedTroeExample(r: Reaction)
    requires r.kind == ChemicallyActivated(Troe)
    ensures FalloffIndices([r]) == [0] && TroeIndices([r]) == [0] && SriIndices([r]) == []
  {
    assert FalloffIndices([r]) == [0] by {
      SameMembersSameSequence(FalloffIndices([r]), [0]);
    }
    assert TroeIndices([r]) == [0] by {
      SameMembersSameSequence(TroeIndices([r]), [0]);
    }
    assert SriIndices([r]) == [] by {
      SameMembersSameSequence(SriIndices([r]), []);
    }
  }

  /** The efficiency a third-body reaction gives a species: the listed one,
      otherwise the reaction's default. */
  function Efficiency(r: Reaction, species: string): real {
    if species in r.efficiencies then r.efficiencies[species] else r.defaultEfficiency
  }

  /** One efficiency per species, in species order. */
  function EfficiencyRow(r: Reaction, species: seq<string>): (row: seq<real>)
    ensures |row| == |species|
    ensures forall j :: 0 <= j < |species| && species[j] in r.efficiencies ==> row[j] == r.efficiencies[species[j]]
    ensures forall j :: 0 <= j < |species| && species[j] !in r.efficiencies ==> row[j] == r.defaultEfficiency
  {
    seq(|species|, j requires 0 <= j < |species| => Efficiency(r, species[j]))
  }

  /** `thd_eff_maps`: the loop that appends, for each third-body reaction in
      index order, its row of per-species efficiencies. */
  method EfficiencyRows(rs: seq<Reaction>, species: seq<string>) returns (rows: seq<seq<real>>)
    ensures |rows| == |ThirdBodyIndices(rs)|
    ensures forall k :: 0 <= k < |rows| ==> |rows[k]| == |species|
    ensures forall k, j :: 0 <= k < |rows| && 0 <= j < |species| ==>
      rows[k][j] == Efficiency(rs[ThirdBodyIndices(rs)[k]], species[j])
  {
    var thd := ThirdBodyIndices(rs);
    rows := [];
    var k := 0;
    while k < |thd|
      invariant 0 <= k <= |thd|
      invariant |rows| == k
      invariant forall m :: 0 <= m < k ==> |rows[m]| == |species|
      invariant forall m, j :: 0 <= m < k && 0 <= j < |species| ==> rows[m][j] == Efficiency(rs[thd[m]], species[j])
    {
      rows := rows + [EfficiencyRow(rs[thd[k]], species)];
      k := k + 1;
    }
  }

  /** `np.where(outer == j)[0][0] for j in inner`: where each entry of
      `inner` sits in `outer`. */
  function PositionMap(outer: seq<nat>, inner: seq<nat>): (m: seq<nat>)
    requires forall x :: x in inner ==> x in outer
    ensures |m| == |inner|
    ensures forall j :: 0 <= j < |m| ==> m[j] < |outer| && outer[m[j]] == inner[j]
  {
    seq(|inner|, j requires 0 <= j < |inner| => IndexOf(outer, inner[j]))
  }

  /** Between ascending index sets the position map is ascending too. */
  lemma PositionMapIncreasing(outer: seq<nat>, inner: seq<nat>)
    requires StrictlyIncreasing(outer) && StrictlyIncreasing(inner)
    requires forall x :: x in inner ==> x in outer
    ensures StrictlyIncreasing(PositionMap(outer, inner))
  {
    var m := PositionMap(outer, inner);
    forall i, j | 0 <= i < j < |m|
      ensures m[i] < m[j]
    {
      assert outer[m[i]] < outer[m[j]];
    }
  }

  /** `np.where(np.in1d(thd_inds, fall_inds))[0]`: the positions in the
      third-body list that hold falloff reactions. */
  function ThirdBodyToFalloffMap(thd: seq<nat>, fall: seq<nat>): (m: seq<nat>)
    ensures StrictlyIncreasing(m)
    ensures forall k: nat :: k in m <==> k < |thd| && thd[k] in fall
  {
    Select(thd, x => x in fall)
  }

  /** The positions in `s` of the members of `t`, listed in ascending order,
      pick out exactly `t`, entry by entry. */
  lemma PositionsPickOut(s: seq<nat>, t: seq<nat>, pos: seq<nat>)
    requires StrictlyIncreasing(s) && StrictlyIncreasing(t) && StrictlyIncreasing(pos)
    requires forall x :: x in t ==> x in s
    requires forall i: nat :: i in pos <==> i < |s| && s[i] in t
    ensures |pos| == |t|
    ensures forall m :: 0 <= m < |pos| ==> pos[m] < |s| && s[pos[m]] == t[m]
  {
    assert forall m :: 0 <= m < |pos| ==> pos[m] in pos;
    var values := seq(|pos|, m requires 0 <= m < |pos| => s[pos[m]]);
    forall a, b | 0 <= a < b < |values|
      ensures values[a] < values[b]
    {
    }
    forall x | x in values
      ensures x in t
    {
      var m :| 0 <= m < |pos| && values[m] == x;
      assert pos[m] in pos;
    }
    forall x | x in t
      ensures x in values
    {
      var i :| 0 <= i < |s| && s[i] == x;
      assert i in pos;
      var m :| 0 <= m < |pos| && pos[m] == i;
      assert values[m] == x;
    }
    SameMembersSameSequence(values, t);
  }

  /** When every falloff index is in the third-body list and both are
      ascending, entry `m` of the map points at the third-body row of the
      `m`-th falloff reaction: `thd[map[m]] == fall[m]`, so the map has one
      entry per falloff reaction. */
  lemma ThirdBodyToFalloffAligned(thd: seq<nat>, fall: seq<nat>)
    requires StrictlyIncreasing(thd) && StrictlyIncreasing(fall)
    requires forall x :: x in fall ==> x in thd
    ensures var map' := ThirdBodyToFalloffMap(thd, fall);
      && |map'| == |fall|
      && StrictlyIncreasing(map')
      && forall m :: 0 <= m < |map'| ==> map'[m] < |thd| && thd[map'[m]] == fall[m]
  {
    var pos := ThirdBodyToFalloffMap(thd, fall);
    PositionsPickOut(thd, fall, pos);
  }

  /** Rows by columns of a reference array. */
  datatype Shape = Shape(rows: nat, cols: nat)

  /** What `storage.__init__` sets up before the per-state loop. */
  datatype Storage = Storage(
    testSize: nat,
    temperatureCount: nat,
    pressureCount: nat,
    thdInds: seq<nat>,
    thdEffMaps: seq<seq<real>>,
    revInds: seq<nat>,
    fallInds: seq<nat>,
    sriInds: seq<nat>,
    troeInds: seq<nat>,
    troeToPrMap: seq<nat>,
    sriToPrMap: seq<nat>,
    thdToFallMap: seq<nat>,
    massFractions: Shape,
    concs: Shape,
    fwdRateConstants: Shape,
    refThd: Shape,
    revRateConstants: Shape,
    equilibriumConstants: Shape,
    refPr: Shape,
    refSri: Shape,
    refTroe: Shape,
    refBRev: Shape)

  /** Every array has one column per state, one row per member of the index
      set it is indexed by, and every index array used by the per-state loop
      addresses a row of the array it selects from, aligned with the reaction
      it stands for. */
  ghost predicate Consistent(s: Storage, nReactions: nat, nSpecies: nat) {
    && s.temperatureCount == s.testSize
    && s.pressureCount == s.testSize
    && s.massFractions == Shape(nSpecies, s.testSize)
    && s.concs == Shape(nSpecies, s.testSize)
    && s.fwdRateConstants == Shape(nReactions, s.testSize)
    && s.refBRev == Shape(nSpecies, s.testSize)
    && s.revRateConstants == Shape(|s.revInds|, s.testSize)
    && s.equilibriumConstants == Shape(|s.revInds|, s.testSize)
    && s.refThd == Shape(|s.thdInds|, s.testSize)
    && s.refPr == Shape(|s.fallInds|, s.testSize)
    && s.refSri == Shape(|s.sriInds|, s.testSize)
    && s.refTroe == Shape(|s.troeInds|, s.testSize)
    // reverse and equilibrium rows are picked from per-reaction arrays
    && (forall k :: 0 <= k < |s.revInds| ==> s.revInds[k] < nReactions)
    // the efficiency matrix times the concentrations gives the third-body rows
    && |s.thdEffMaps| == s.refThd.rows
    && (forall k :: 0 <= k < |s.thdEffMaps| ==> |s.thdEffMaps[k]| == s.concs.rows)
    // the reduced pressure row m takes third-body row thdToFallMap[m] of the same reaction
    && |s.thdToFallMap| == s.refPr.rows
    && (forall m :: 0 <= m < |s.thdToFallMap| ==>
          s.thdToFallMap[m] < s.refThd.rows && s.thdInds[s.thdToFallMap[m]] == s.fallInds[m])
    // the SRI and Troe rows read the reduced pressure of the same reaction
    && |s.sriToPrMap| == s.refSri.rows
    && (forall j :: 0 <= j < |s.sriToPrMap| ==>
          s.sriToPrMap[j] < s.refPr.rows && s.fallInds[s.sriToPrMap[j]] == s.sriInds[j])
    && |s.troeToPrMap| == s.refTroe.rows
    && (forall j :: 0 <= j < |s.troeToPrMap| ==>
          s.troeToPrMap[j] < s.refPr.rows && s.fallInds[s.troeToPrMap[j]] == s.troeInds[j])
  }

  /** `storage.__init__` up to the per-state loop. */
  method Build(rs: seq<Reaction>, species: seq<string>) returns (s: Storage)
    ensures s.testSize == TestSize
    ensures s.thdInds == ThirdBodyIndices(rs)
    ensures s.revInds == ReversibleIndices(rs)
    ensures s.fallInds == FalloffIndices(rs)
    ensures s.sriInds == SriIndices(rs)
    ensures s.troeInds == TroeIndices(rs)
    ensures |s.thdEffMaps| == |s.thdInds|
    ensures forall k :: 0 <= k < |s.thdEffMaps| ==> |s.thdEffMaps[k]| == |species|
    ensures forall k, j :: 0 <= k < |s.thdEffMaps| && 0 <= j < |species| ==>
      s.thdEffMaps[k][j] == Efficiency(rs[s.thdInds[k]], species[j])
    ensures StrictlyIncreasing(s.troeToPrMap) && StrictlyIncreasing(s.sriToPrMap)
    ensures StrictlyIncreasing(s.thdToFallMap)
    ensures Consistent(s, |rs|, |species|)
  {
    var thdInds := ThirdBodyIndices(rs);
    var thdEffMaps := EfficiencyRows(rs, species);
    var revInds := ReversibleIndices(rs);
    var fallInds := FalloffIndices(rs);
    var sriInds := SriIndices(rs);
    var troeInds := TroeIndices(rs);
    IndexSetsNest(rs);
    var troeToPrMap := PositionMap(fallInds, troeInds);
    var sriToPrMap := PositionMap(fallInds, sriInds);
    PositionMapIncreasing(fallInds, troeInds);
    PositionMapIncreasing(fallInds, sriInds);
    var thdToFallMap := ThirdBodyToFalloffMap(thdInds, fallInds);
    ThirdBodyToFalloffAligned(thdInds, fallInds);
    s := Storage(
      TestSize, TestSize, TestSize, thdInds, thdEffMaps, revInds, fallInds, sriInds, troeInds,
      troeToPrMap, sriToPrMap, thdToFallMap,
      Shape(|species|, TestSize), Shape(|species|, TestSize), Shape(|rs|, TestSize),
      Shape(|thdInds|, TestSize),
      Shape(|revInds|, TestSize), Shape(|revInds|, TestSize),
      Shape(|fallInds|, TestSize), Shape(|sriInds|, TestSize), Shape(|troeInds|, TestSize),
      Shape(|species|, TestSize));
  }
}
