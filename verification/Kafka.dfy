/** pkg/kafka/producer.go: the name-to-value object that SendPointValues builds. */
module Kafka {
  import opened Words
  import opened Points
  import opened Devices
  import opened Decoding
  import opened Grouping
  import opened Reading

  /** Later values overwrite earlier ones of the same name. */
  function ValuesMap(values: seq<PointValue>): map<string, Option<Value>>
  {
    if values == [] then map[]
    else ValuesMap(values[..|values| - 1])[values[|values| - 1].name := values[|values| - 1].value]
  }

  method BuildValuesMap(values: seq<PointValue>) returns (valuesMap: map<string, Option<Value>>)
    ensures valuesMap == ValuesMap(values)
  {
    valuesMap := map[];
    var i := 0;
    while i < |values|
      invariant 0 <= i <= |values| && valuesMap == ValuesMap(values[..i])
    {
      valuesMap := valuesMap[values[i].name := values[i].value];
      assert values[..i + 1][..i] == values[..i];
      i := i + 1;
    }
    assert values[..i] == values;
  }

  ghost predicate DistinctNames(values: seq<PointValue>)
  {
    forall i, j :: 0 <= i < j < |values| ==> values[i].name != values[j].name
  }

  ghost function NamesIn(values: seq<PointValue>): set<string> { set i | 0 <= i < |values| :: values[i].name }

  /** With distinct names the object holds exactly the names, each with its own value. */
  lemma {:induction false} OwnValues(values: seq<PointValue>)
    requires DistinctNames(values)
    ensures ValuesMap(values).Keys == NamesIn(values)
    ensures forall i :: 0 <= i < |values| ==> ValuesMap(values)[values[i].name] == values[i].value
  {
    if values != [] {
      var front, last := values[..|values| - 1], values[|values| - 1];
      OwnValues(front);
      assert NamesIn(values) == NamesIn(front) + {last.name} by {
        assert forall i :: 0 <= i < |front| ==> front[i] == values[i];
      }
      forall i | 0 <= i < |values| ensures ValuesMap(values)[values[i].name] == values[i].value {
        if i < |front| {
          assert front[i] == values[i];
        }
      }
    }
  }

  /** The order in which the values come does not matter. */
  lemma OrderIrrelevant(values: seq<PointValue>, values': seq<PointValue>)
    requires DistinctNames(values) && DistinctNames(values') && multiset(values) == multiset(values')
    ensures ValuesMap(values) == ValuesMap(values')
  {
    OwnValues(values);
    OwnValues(values');
    forall i | 0 <= i < |values| ensures values[i] in values' {
      assert values[i] in multiset(values');
    }
    forall i | 0 <= i < |values'| ensures values'[i] in values {
      assert values'[i] in multiset(values);
    }
  }

  // ---- From a configuration to the message -------------------------------------------------------

  /** Regrouping keeps names unique. */
  lemma NamesStayUnique(points: seq<Point>, regrouped: seq<Point>)
    requires UniqueNames(points) && multiset(regrouped) == multiset(points)
    ensures UniqueNames(regrouped)
  {
    Unrepeated(points, regrouped);
    forall i, j | 0 <= i < j < |regrouped| ensures regrouped[i].name != regrouped[j].name {
      assert regrouped[i] in multiset(points) && regrouped[j] in multiset(points);
    }
  }

  ghost function ConfiguredNames(points: seq<Point>): set<string> { set p | p in points :: p.name }

  /** The message of a collection: its keys are the configured names, and the entry of each point whose
      group reads its own registers is that point's own value, whatever order the grouping emits the
      points in. */
  lemma MessageOfCollection(settings: Settings, image: Image, points: seq<Point>, es: seq<Exchange>,
                            values: seq<PointValue>)
    requires UniqueNames(points) && AllHonest(image, es) && CollectGroups(settings, Grouped(points), es).Returns?
    requires CollectGroups(settings, Grouped(points), es).value == Some(values)
    ensures ValuesMap(values).Keys == ConfiguredNames(points)
    ensures forall j, k | 0 <= j < |Grouped(points)| && 0 <= k < |Grouped(points)[j].points| ::
      ReadsOwn(Grouped(points)[j]) ==>
        EntryOk(settings, image, Grouped(points)[j].points[k], WasServed(Grouped(points), es, j), ValuesMap(values))
  {
    hide Grouped, CollectGroups, ValuesMap, ReadsOwn, WasServed, CompleteRead, AllPoints, Concat, Expected;
    var groups := Grouped(points);
    var regrouped := AllPoints(groups);
    GroupedPartitions(points);
    NamesStayUnique(points, regrouped);
    CollectNames(settings, groups, es);
    assert |values| == |ValueNames(values)| == |regrouped|;
    forall i | 0 <= i < |values| ensures values[i].name == regrouped[i].name {
      assert values[i].name == ValueNames(values)[i] == PointNames(regrouped)[i];
    }
    OwnValues(values);
    SameNames(points, regrouped, values);
    forall j, k | 0 <= j < |groups| && 0 <= k < |groups[j].points| && ReadsOwn(groups[j])
      ensures EntryOk(settings, image, groups[j].points[k], WasServed(groups, es, j), ValuesMap(values))
    {
      CollectReportsAt(settings, groups, es, image, j, k);
      ExpectedName(settings, image, groups[j].points[k], WasServed(groups, es, j));
    }
  }

  lemma ExpectedName(settings: Settings, image: Image, p: Point, served: bool)
    ensures Expected(settings, image, p, served).name == p.name
  {
    hide DecodeAs, WrappedSlice;
  }

  ghost predicate EntryOk(settings: Settings, image: Image, p: Point, served: bool, message: map<string, Option<Value>>)
  {
    p.name in message && message[p.name] == Expected(settings, image, p, served).value
  }

  lemma SameNames(points: seq<Point>, regrouped: seq<Point>, values: seq<PointValue>)
    requires multiset(regrouped) == multiset(points) && |values| == |regrouped|
    requires forall i :: 0 <= i < |values| ==> values[i].name == regrouped[i].name
    ensures NamesIn(values) == ConfiguredNames(points)
  {
    forall p | p in points ensures p in regrouped {
      assert p in multiset(regrouped);
    }
    forall p | p in regrouped ensures p in points {
      assert p in multiset(points);
    }
    forall p | p in points ensures p.name in NamesIn(values) {
      var i :| 0 <= i < |regrouped| && regrouped[i] == p;
      assert values[i].name == p.name;
    }
    forall i | 0 <= i < |values| ensures values[i].name in ConfiguredNames(points) {
      assert regrouped[i] in points;
    }
  }
}
