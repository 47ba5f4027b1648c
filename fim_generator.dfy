/**
 * The depth-severity reclassification of the flood-inundation map generator:
 * a fixed table of four half-open depth ranges, and the step that gives every
 * reach a severity class (0..4) and a severity name.
 */
module FimGenerator {

  /** Upper end of a depth range; the last class is unbounded above (np.inf). */
  datatype Bound = Finite(value: real) | Infinity

  /** One row of the depth class table: id, name and the range [minDepth, maxDepth). */
  datatype DepthClass = DepthClass(id: nat, name: string, minDepth: real, maxDepth: Bound)

  /** A reach of the depth map before reclassification (feature_id, discharge, depth_m). */
  datatype Reach = Reach(featureId: string, discharge: real, depth: real)

  /** A reach after reclassification: the input columns plus severity_class and severity_name. */
  datatype ClassifiedReach = ClassifiedReach(
    featureId: string, discharge: real, depth: real, severityClass: nat, severityName: string)

  /** The FEMA depth classes, in the table's (insertion) order. */
  const DepthClasses: seq<DepthClass> := [
    DepthClass(1, "Low", 0.0001, Finite(0.4)),
    DepthClass(2, "Moderate", 0.4, Finite(0.8)),
    DepthClass(3, "High", 0.8, Finite(1.8)),
    DepthClass(4, "Very High", 1.8, Infinity)
  ]

  /** The name of a reach no range matches. */
  const NoneName: string := "None"

  /** The mask of one class: lower bound inclusive, upper bound exclusive. */
  predicate InRange(c: DepthClass, depth: real)
  {
    c.minDepth <= depth && (c.maxDepth.Finite? ==> depth < c.maxDepth.value)
  }

  /**
   * Reference definition of the severity class of a depth, independent of the
   * table: compare the depth with the class thresholds from the top down.
   */
  function SeverityClassOf(depth: real): (k: nat)
    ensures k <= 4
    ensures k == 0 <==> depth < 0.0001
    ensures depth >= 1.8 ==> k == 4
  {
    if depth >= 1.8 then 4
    else if depth >= 0.8 then 3
    else if depth >= 0.4 then 2
    else if depth >= 0.0001 then 1
    else 0
  }

  /** The name that goes with a severity class: "None" for 0, the table's name otherwise. */
  function SeverityName(k: nat): (name: string)
    requires k <= 4
    ensures k == 0 <==> name == NoneName
    ensures 1 <= k ==> name == DepthClasses[k - 1].name
  {
    if k == 0 then NoneName else DepthClasses[k - 1].name
  }

  /** The row the copied frame starts from: class 0, name "None". */
  function Unclassified(r: Reach): ClassifiedReach
  {
    ClassifiedReach(r.featureId, r.discharge, r.depth, 0, NoneName)
  }

  /** One mask assignment: overwrite class and name where the class's range holds the depth. */
  function MaskStep(c: DepthClass, row: ClassifiedReach): ClassifiedReach
  {
    if InRange(c, row.depth) then row.(severityClass := c.id, severityName := c.name) else row
  }

  /** The rows after applying the masks of `order`, one class after the other. */
  function Masked(order: seq<DepthClass>, row: ClassifiedReach): ClassifiedReach
  {
    if order == [] then row else MaskStep(order[|order| - 1], Masked(order[..|order| - 1], row))
  }

  /** The row with the class and name the reference definition assigns. */
  function WithSeverity(row: ClassifiedReach, k: nat): ClassifiedReach
    requires k <= 4
  {
    row.(severityClass := k, severityName := SeverityName(k))
  }

  // ---------------------------------------------------------------------------
  // Properties of the class table

  /** Each table row sits at index id - 1; the ranges are contiguous and the last is unbounded. */
  lemma TableContiguous()
    ensures |DepthClasses| == 4
    ensures forall k :: 0 <= k < 4 ==> DepthClasses[k].id == k + 1
    ensures forall k :: 0 <= k < 3 ==> DepthClasses[k].maxDepth == Finite(DepthClasses[k + 1].minDepth)
    ensures DepthClasses[3].maxDepth == Infinity
    ensures DepthClasses[0].minDepth == 0.0001
  {
  }

  /** A depth lies in table row k exactly when the reference class of that depth is k + 1. */
  lemma InRangeIffClass(k: nat, depth: real)
    requires k < |DepthClasses|
    ensures InRange(DepthClasses[k], depth) <==> SeverityClassOf(depth) == k + 1
  {
  }

  /** At most one mask matches a depth: the ranges are pairwise disjoint. */
  lemma RangesDisjoint(j: nat, k: nat, depth: real)
    requires j < |DepthClasses| && k < |DepthClasses|
    requires InRange(DepthClasses[j], depth) && InRange(DepthClasses[k], depth)
    ensures j == k
  {
    InRangeIffClass(j, depth);
    InRangeIffClass(k, depth);
  }

  /** Every depth >= 0.0001 lies in exactly one range, and a smaller depth in none. */
  lemma RangesCover(depth: real)
    ensures depth >= 0.0001 ==> InRange(DepthClasses[SeverityClassOf(depth) - 1], depth)
    ensures depth < 0.0001 ==> forall k :: 0 <= k < |DepthClasses| ==> !InRange(DepthClasses[k], depth)
  {
    if depth >= 0.0001 {
      InRangeIffClass(SeverityClassOf(depth) - 1, depth);
    } else {
      forall k | 0 <= k < |DepthClasses|
        ensures !InRange(DepthClasses[k], depth)
      {
        InRangeIffClass(k, depth);
      }
    }
  }

  /** A depth equal to a class's lower bound belongs to that class, not the one below. */
  lemma LowerBoundInclusive(k: nat)
    requires k < |DepthClasses|
    ensures SeverityClassOf(DepthClasses[k].minDepth) == DepthClasses[k].id
    ensures k > 0 ==> !InRange(DepthClasses[k - 1], DepthClasses[k].minDepth)
  {
  }

  /** The severity class never decreases as the depth grows. */
  lemma SeverityMonotone(d1: real, d2: real)
    requires d1 <= d2
    ensures SeverityClassOf(d1) <= SeverityClassOf(d2)
  {
  }

  /** Boundary cases: 0.0001, 0.39999, 0.4, 5.0 and 0. */
  lemma BoundaryExamples()
    ensures SeverityClassOf(0.0001) == 1 && SeverityName(1) == "Low"
    ensures SeverityClassOf(0.39999) == 1
    ensures SeverityClassOf(0.4) == 2 && SeverityName(2) == "Moderate"
    ensures SeverityClassOf(5.0) == 4 && SeverityName(4) == "Very High"
    ensures SeverityClassOf(0.0) == 0 && SeverityName(0) == "None"
  {
  }

  // ---------------------------------------------------------------------------
  // The masks, applied in any order

  /** Some class of `order` has a range holding the depth. */
  predicate Matched(order: seq<DepthClass>, depth: real)
  {
    exists c :: c in order && InRange(c, depth)
  }

  /**
   * Applying the masks of any selection of table classes, in any order and with
   * repetitions, leaves the row alone if none matches and otherwise gives it
   * the reference class and name.
   */
  lemma {:induction false} MaskedByTableClasses(order: seq<DepthClass>, row: ClassifiedReach)
    requires forall c :: c in order ==> c in DepthClasses
    requires row.severityClass <= 4
    requires row.severityName == SeverityName(row.severityClass)
    ensures Masked(order, row) ==
      if Matched(order, row.depth) then WithSeverity(row, SeverityClassOf(row.depth)) else row
  {
    if order != [] {
      var init, last := order[..|order| - 1], order[|order| - 1];
      assert forall c :: c in init ==> c in order;
      MaskedByTableClasses(init, row);
      var prev := Masked(init, row);
      assert prev.depth == row.depth;
      assert last in DepthClasses;
      var k :| 0 <= k < |DepthClasses| && DepthClasses[k] == last;
      InRangeIffClass(k, row.depth);
      if InRange(last, row.depth) {
        assert Matched(order, row.depth);
      } else if Matched(order, row.depth) {
        var c :| c in order && InRange(c, row.depth);
        assert c in init;
        assert Matched(init, row.depth);
      } else {
        forall c | c in init ensures !InRange(c, row.depth) {
          assert c in order;
        }
      }
    }
  }

  /**
   * The loop over the class table does not depend on the table's order: any
   * ordering that holds every class (and only classes of the table) gives
   * every row the reference class and name.
   */
  lemma MaskOrderIrrelevant(order: seq<DepthClass>, r: Reach)
    requires forall c :: c in order ==> c in DepthClasses
    requires forall c :: c in DepthClasses ==> c in order
    ensures Masked(order, Unclassified(r)) == WithSeverity(Unclassified(r), SeverityClassOf(r.depth))
  {
    MaskedByTableClasses(order, Unclassified(r));
    RangesCover(r.depth);
    if r.depth >= 0.0001 {
      assert DepthClasses[SeverityClassOf(r.depth) - 1] in order;
    }
  }

  // ---------------------------------------------------------------------------
  // _reclassify_depth

  /**
   * Copies the depth frame, sets every row to class 0 / "None", then for each
   * class of the table in order overwrites class and name of the rows its mask
   * selects. The input is a value, so it is left unchanged; the result has the
   * same rows in the same order, with the reference class and its name.
   */
  method ReclassifyDepth(depthData: seq<Reach>) returns (classified: seq<ClassifiedReach>)
    ensures |classified| == |depthData|
    ensures forall i :: 0 <= i < |depthData| ==>
      && classified[i].featureId == depthData[i].featureId
      && classified[i].discharge == depthData[i].discharge
      && classified[i].depth == depthData[i].depth
      && classified[i].severityClass == SeverityClassOf(depthData[i].depth)
      && classified[i].severityName == SeverityName(SeverityClassOf(depthData[i].depth))
  {
    var n := |depthData|;
    var frame := new ClassifiedReach[n](i requires 0 <= i < n => Unclassified(depthData[i]));
    for c := 0 to |DepthClasses|
      invariant forall i :: 0 <= i < n ==> frame[i] == Masked(DepthClasses[..c], Unclassified(depthData[i]))
    {
      var cls := DepthClasses[c];
      assert DepthClasses[..c + 1][..c] == DepthClasses[..c];
      for i := 0 to n
        invariant forall j :: 0 <= j < i ==> frame[j] == Masked(DepthClasses[..c + 1], Unclassified(depthData[j]))
        invariant forall j :: i <= j < n ==> frame[j] == Masked(DepthClasses[..c], Unclassified(depthData[j]))
      {
        if InRange(cls, frame[i].depth) {
          frame[i] := frame[i].(severityClass := cls.id, severityName := cls.name);
        }
      }
    }
    assert DepthClasses[..|DepthClasses|] == DepthClasses;
    forall i | 0 <= i < n
      ensures frame[i] == WithSeverity(Unclassified(depthData[i]), SeverityClassOf(depthData[i].depth))
    {
      MaskOrderIrrelevant(DepthClasses, depthData[i]);
    }
    classified := frame[..];
  }
}
