/** pkg/modbus/collector_manager.go: routing of point names to collectors. */
module Managers {
  import opened Words
  import opened Points
  import opened Converter
  import opened Devices
  import opened Decoding
  import opened SinglePoints
  import opened Collectors

  datatype WriteOutcome = PointNotFound | CollectorNotFound | Sent(ok: bool)

  class CollectorManager {
    var collectors: map<string, Collector>
    var points: map<string, Point>
    var deviceMap: map<string, string>

    /** Both point maps know the same names, and each entry of points is filed under its own name. */
    ghost predicate Valid()
      reads this
    {
      points.Keys == deviceMap.Keys && forall name :: name in points ==> points[name].name == name
    }

    constructor ()
      ensures Valid() && collectors == map[] && points == map[] && deviceMap == map[]
    {
      collectors, points, deviceMap := map[], map[], map[];
    }

    method RegisterCollector(deviceName: string, collector: Collector)
      requires Valid()
      modifies `collectors
      ensures Valid() && collectors == old(collectors)[deviceName := collector]
    {
      collectors := collectors[deviceName := collector];
    }

    /** The last registration of a name decides both its point and its device. */
    method RegisterPoint(point: Point, deviceName: string)
      requires Valid()
      modifies `points, `deviceMap
      ensures Valid()
      ensures points == old(points)[point.name := point] && deviceMap == old(deviceMap)[point.name := deviceName]
    {
      points := points[point.name := point];
      deviceMap := deviceMap[point.name := deviceName];
    }

    /** The collector a name is routed to. */
    function Route(name: string): (c: Option<Collector>)
      reads this
      ensures c.Some? <==> name in deviceMap && deviceMap[name] in collectors
    {
      if name in deviceMap && deviceMap[name] in collectors then Some(collectors[deviceMap[name]]) else None
    }

    ghost function Footprint(name: string): set<object>
      reads this
    {
      if Route(name).Some? then {Route(name).value, Route(name).value.client} else {}
    }

    /** A write reaches only the device its name was last registered for, and there it is a write of
        the point that was registered with it. */
    method WritePoint(name: string, value: GoValue) returns (outcome: WriteOutcome, ghost es: seq<Exchange>)
      requires Valid() && (Route(name).Some? ==> Route(name).value.Valid())
      modifies Footprint(name)
      ensures outcome.PointNotFound? <==> name !in deviceMap
      ensures outcome.CollectorNotFound? <==> name in deviceMap && Route(name).None?
      ensures outcome.Sent? ==> name in points && Route(name).value.Valid()
      ensures outcome.Sent? && Route(name).value.connected ==>
        WriteOne(Route(name).value.settings, points[name], value, es) == Returns(outcome.ok, [])
      ensures outcome.Sent? && !Route(name).value.connected ==> !outcome.ok
      ensures outcome.Sent? && outcome.ok ==>
        var c := Route(name).value;
        var request := WriteRequest(c.settings, points[name], value);
        c.connected && request.Some? && c.client.image == Apply(old(c.client.image), request.value)
      ensures outcome.Sent? && !outcome.ok ==>
        var c := Route(name).value;
        var request := WriteRequest(c.settings, points[name], value);
        c.client.image == old(c.client.image) ||
        (request.Some? && c.client.image == Apply(old(c.client.image), request.value))
    {
      es := [];
      if name !in deviceMap {
        return PointNotFound, es;
      }
      var deviceName := deviceMap[name];
      if deviceName !in collectors {
        return CollectorNotFound, es;
      }
      var ok;
      ghost var reached;
      ok, reached, es := collectors[deviceName].WritePoint(points[name], value);
      outcome := Sent(ok);
    }

    /** None is the error result; a value is the registered point's single-read meaning on its device. */
    method GetPointValue(name: string) returns (r: Option<Value>, ghost es: seq<Exchange>)
      requires Valid() && (Route(name).Some? ==> Route(name).value.Valid())
      modifies Footprint(name)
      ensures Route(name).None? ==> r.None?
      ensures Route(name).Some? ==>
        Route(name).value.Valid() && Route(name).value.client.image == old(Route(name).value.client.image)
      ensures Route(name).Some? && Route(name).value.connected ==>
        name in points && ReadOne(Route(name).value.settings, points[name], es) == Returns(r, [])
      ensures Route(name).Some? && !Route(name).value.connected ==> r.None?
      ensures r.Some? ==>
        && name in points
        && r == SingleMeaning(Route(name).value.settings, Route(name).value.client.image, points[name])
    {
      es := [];
      if name !in deviceMap {
        return None, es;
      }
      var deviceName := deviceMap[name];
      if deviceName !in collectors {
        return None, es;
      }
      var value;
      ghost var reached;
      value, reached, es := collectors[deviceName].ReadSinglePoint(points[name]);
      r := if value.Some? then value.value.value else None;
    }
  }
}
