/** The scenario reader: rows of the scene table become time-stamped
    boundary and control events per network element, plus the simulation's
    end time, step size and checkpoints. */
module SceneCsv {
  import opened Wrappers
  import opened Strings
  import Units

  datatype Failure =
    | ValueError            // a time field that is not a number
    | SceneError(msg: string)
    | UnboundTime           // a row needs a time before any row gave one
    | UnitFailure(msg: string)

  // ---------------------------------------------------------------------
  // Time strings

  /** Casts every field, failing if any field is not a number. */
  function CastAll(fields: seq<string>, cast: string -> Option<real>): (r: Option<seq<real>>)
    ensures r.Some? <==> forall i :: 0 <= i < |fields| ==> cast(fields[i]).Some?
    ensures r.Some? ==> |r.value| == |fields|
                        && forall i :: 0 <= i < |fields| ==> cast(fields[i]) == Some(r.value[i])
  {
    if fields == [] then Some([])
    else match (cast(fields[0]), CastAll(fields[1..], cast))
      case (Some(x), Some(xs)) =>
        assert forall i :: 1 <= i < |fields| ==> fields[i] == fields[1..][i - 1];
        Some([x] + xs)
      case (None, _) => None
      case (_, None) =>
        assert forall i :: 0 <= i < |fields[1..]| ==> fields[1..][i] == fields[i + 1];
        None
  }

  function TimeFormatMsg(text: string): string
  {
    "time format not understood: " + text + "!"
    + "Expected: Days:hours:minutes:seconds -or- hours:minutes:seconds -or- hours:minutes -or- seconds"
  }

  /** s, h:m, h:m:s or d:h:m:s. */
  function FromFields(xs: seq<real>, text: string): Result<real, Failure>
  {
    if |xs| == 1 then Ok(Units.DateToSec(0.0, 0.0, 0.0, xs[0]))
    else if |xs| == 2 then Ok(Units.DateToSec(0.0, xs[0], xs[1], 0.0))
    else if |xs| == 3 then Ok(Units.DateToSec(0.0, xs[0], xs[1], xs[2]))
    else if |xs| == 4 then Ok(Units.DateToSec(xs[0], xs[1], xs[2], xs[3]))
    else Err(SceneError(TimeFormatMsg(text)))
  }

  /** A ':'-separated time as seconds. */
  function TimeToSec(text: string, cast: string -> Option<real>): Result<real, Failure>
  {
    match CastAll(Split(text, ":"), cast)
    case None => Err(ValueError)
    case Some(xs) => FromFields(xs, text)
  }

  predicate NoColon(fields: seq<string>)
  {
    forall k :: 0 <= k < |fields| ==> ':' !in fields[k]
  }

  /** Written with one to four numeric fields, a time reads as seconds,
      hours:minutes, hours:minutes:seconds or days:hours:minutes:seconds;
      with more fields it is refused, and a field that is not a number is a
      value error. */
  lemma TimeFormats(fields: seq<string>, cast: string -> Option<real>)
    requires |fields| >= 1 && NoColon(fields)
    ensures var text := Join(fields, ":");
            var ok := forall i :: 0 <= i < |fields| ==> cast(fields[i]).Some?;
            (!ok ==> TimeToSec(text, cast) == Err(ValueError))
            && (ok && |fields| == 1 ==>
                  TimeToSec(text, cast) == Ok(cast(fields[0]).value))
            && (ok && |fields| == 2 ==>
                  TimeToSec(text, cast) == Ok(Units.DateToSec(0.0, cast(fields[0]).value, cast(fields[1]).value, 0.0)))
            && (ok && |fields| == 3 ==>
                  TimeToSec(text, cast) == Ok(Units.DateToSec(0.0, cast(fields[0]).value, cast(fields[1]).value, cast(fields[2]).value)))
            && (ok && |fields| == 4 ==>
                  TimeToSec(text, cast) == Ok(Units.DateToSec(cast(fields[0]).value, cast(fields[1]).value,
                                                              cast(fields[2]).value, cast(fields[3]).value)))
            && (ok && |fields| > 4 ==> TimeToSec(text, cast) == Err(SceneError(TimeFormatMsg(text))))
  {
    TimeText(fields, cast);
    var cs := CastAll(fields, cast);
    if cs.Some? {
      var xs := cs.value;
      assert |xs| == |fields| && forall i :: 0 <= i < |fields| ==> cast(fields[i]).value == xs[i];
      if |fields| == 1 {
        assert Units.DateToSec(0.0, 0.0, 0.0, xs[0]) == xs[0];
      }
    }
  }

  /** A time written as fields joined by ':' is read field by field. */
  lemma TimeText(fields: seq<string>, cast: string -> Option<real>)
    requires |fields| >= 1 && NoColon(fields)
    ensures var cs := CastAll(fields, cast);
            TimeToSec(Join(fields, ":"), cast)
              == if cs.None? then Err(ValueError) else FromFields(cs.value, Join(fields, ":"))
  {
    JoinSplit(fields, ':');
  }

  // ---------------------------------------------------------------------
  // The event dictionary

  /** The '_SYS' entry: checkpoint times, the end time and the step size. */
  datatype Sys = Sys(checkpoints: seq<real>, end: Option<real>, dt: Option<real>)

  /** The parsed scenario: the '_SYS' entry and, per element name, one list
      of values per event key ("t", "pset", "io", ...). */
  datatype Events = Events(sys: Sys, objects: map<string, map<string, seq<real>>>)

  const Empty := Events(Sys([], None, None), map[])

  /** Appends v to the list under k, starting the list if k is new. */
  function AppendOne(lists: map<string, seq<real>>, k: string, v: real): map<string, seq<real>>
  {
    lists[k := (if k in lists then lists[k] else []) + [v]]
  }

  function AppendAll(lists: map<string, seq<real>>, entries: seq<(string, real)>): map<string, seq<real>>
    decreases |entries|
  {
    if entries == [] then lists
    else AppendAll(AppendOne(lists, entries[0].0, entries[0].1), entries[1..])
  }

  /** The object's entry, created empty if missing, with each entry's value
      appended under its key. */
  function Append(ev: Events, obj: string, entries: seq<(string, real)>): Events
  {
    var lists := if obj in ev.objects then ev.objects[obj] else map[];
    ev.(objects := ev.objects[obj := AppendAll(lists, entries)])
  }

  function Keys(entries: seq<(string, real)>): set<string>
  {
    set i | 0 <= i < |entries| :: entries[i].0
  }

  predicate DistinctKeys(entries: seq<(string, real)>)
  {
    forall i, j :: 0 <= i < j < |entries| ==> entries[i].0 != entries[j].0
  }

  function ListOf(lists: map<string, seq<real>>, k: string): seq<real>
  {
    if k in lists then lists[k] else []
  }

  /** With distinct keys, each given key's list grows by exactly its value,
      every other key keeps its list, and no other key appears. */
  lemma {:induction false} AppendAllGrows(lists: map<string, seq<real>>, entries: seq<(string, real)>)
    requires DistinctKeys(entries)
    ensures AppendAll(lists, entries).Keys == lists.Keys + Keys(entries)
    ensures forall i :: 0 <= i < |entries| ==>
              AppendAll(lists, entries)[entries[i].0] == ListOf(lists, entries[i].0) + [entries[i].1]
    ensures forall k :: k in lists && k !in Keys(entries) ==> AppendAll(lists, entries)[k] == lists[k]
    decreases |entries|
  {
    if entries != [] {
      var first := AppendOne(lists, entries[0].0, entries[0].1);
      var rest := entries[1..];
      KeysTail(entries);
      AppendAllGrows(first, rest);
      forall i | 0 <= i < |entries|
        ensures AppendAll(lists, entries)[entries[i].0] == ListOf(lists, entries[i].0) + [entries[i].1]
      {
        if i > 0 {
          assert rest[i - 1] == entries[i];
          assert entries[i].0 != entries[0].0;
        }
      }
    }
  }

  /** The keys of a non-empty list: its first key, which the rest does not
      repeat when the keys are distinct, and the keys of the rest. */
  lemma KeysTail(entries: seq<(string, real)>)
    requires DistinctKeys(entries) && entries != []
    ensures DistinctKeys(entries[1..]) && entries[0].0 !in Keys(entries[1..])
    ensures Keys(entries) == {entries[0].0} + Keys(entries[1..])
  {
    var rest := entries[1..];
    forall i, j | 0 <= i < j < |rest| ensures rest[i].0 != rest[j].0 {
      assert rest[i] == entries[i + 1] && rest[j] == entries[j + 1];
    }
    forall j | 0 <= j < |rest| ensures rest[j].0 != entries[0].0 {
      assert rest[j] == entries[j + 1];
    }
    forall k | k in Keys(entries) ensures k in {entries[0].0} + Keys(rest) {
      var i :| 0 <= i < |entries| && entries[i].0 == k;
      if i > 0 {
        assert rest[i - 1] == entries[i];
      }
    }
    forall k | k in Keys(rest) ensures k in Keys(entries) {
      var i :| 0 <= i < |rest| && rest[i].0 == k;
      assert entries[i + 1] == rest[i];
    }
  }

  /** What Append does to the event dictionary, in the terms of
      AppendAllGrows, and that it leaves '_SYS' and other objects alone. */
  lemma AppendGrows(ev: Events, obj: string, entries: seq<(string, real)>)
    requires DistinctKeys(entries)
    ensures var ev' := Append(ev, obj, entries);
            var before := if obj in ev.objects then ev.objects[obj] else map[];
            ev'.sys == ev.sys
            && ev'.objects.Keys == ev.objects.Keys + {obj}
            && (forall o :: o in ev.objects && o != obj ==> ev'.objects[o] == ev.objects[o])
            && ev'.objects[obj].Keys == before.Keys + Keys(entries)
            && (forall i :: 0 <= i < |entries| ==>
                  ev'.objects[obj][entries[i].0] == ListOf(before, entries[i].0) + [entries[i].1])
            && (forall k :: k in before && k !in Keys(entries) ==> ev'.objects[obj][k] == before[k])
  {
    var before := if obj in ev.objects then ev.objects[obj] else map[];
    AppendAllGrows(before, entries);
  }

  /** The mutable event dictionary of the reader. */
  class EventDict {
    var sys: Sys
    var objects: map<string, map<string, seq<real>>>

    function Snapshot(): Events
      reads this
    {
      Events(sys, objects)
    }

    constructor()
      ensures Snapshot() == Empty
    {
      sys := Sys([], None, None);
      objects := map[];
    }

    /** Lines 60-68: the entries appended one key at a time. */
    method AppendEvents(obj: string, entries: seq<(string, real)>)
      modifies this
      ensures Snapshot() == Append(old(Snapshot()), obj, entries)
    {
      if obj !in objects {
        objects := objects[obj := map[]];
      }
      var lists := objects[obj];
      ghost var start := lists;
      var i := 0;
      while i < |entries|
        invariant i <= |entries|
        invariant AppendAll(lists, entries[i..]) == AppendAll(start, entries)
      {
        var (key, val) := entries[i];
        assert entries[i..][1..] == entries[i + 1..];
        ghost var prev := lists;
        if key !in lists {
          assert [] + [val] == [val];
          lists := lists[key := [val]];
        } else {
          lists := lists[key := lists[key] + [val]];
        }
        assert lists == AppendOne(prev, key, val);
        i := i + 1;
      }
      assert entries[i..] == [];
      objects := objects[obj := lists];
    }

    /** Lines 95-176 for one row: the new time in effect, or the error the
        row raises. */
    method ApplyRow(env: Env, time: Option<real>, row: Row) returns (r: Result<Option<real>, Failure>)
      modifies this
      ensures r.Err? ==> Step(env, old(Snapshot()), time, row) == Err(r.error)
      ensures r.Ok? ==> Step(env, old(Snapshot()), time, row) == Ok((Snapshot(), r.value))
    {
      if row.bang == "!" {
        return Ok(time);
      }
      var val := ValueOf(env, row.value);
      var now := time;
      if row.time != "" {
        var t := TimeToSec(row.time, env.cast);
        if t.Err? {
          return Err(t.error);
        }
        now := Some(t.value);
      }
      var obj, param, unit := row.obj, row.param, row.unit;
      var e: Option<Failure> := None;
      if obj == "_SYS" {
        e := ApplySys(env, now, param, val, unit);
      } else if obj !in env.types {
        e := Some(SceneError(UnknownMsg(obj)));
      } else {
        var ty := env.types[obj];
        if Contains(ty, "node") {
          e := ApplyNode(env, now, obj, param, val, unit);
        } else if Contains(ty, "common-valve") && (param == "ON" || param == "OFF") {
          if now.None? {
            e := Some(UnboundTime);
          } else {
            AppendEvents(obj, [("t", now.value), ("io", if param != "OFF" then 1.0 else 0.0)]);
          }
        } else if Contains(ty, "compressor") || Contains(ty, "control-valve") {
          e := ApplyActive(env, now, obj, param, val, unit);
        }
      }
      if e.Some? {
        return Err(e.value);
      }
      return Ok(now);
    }

    method ApplySys(env: Env, time: Option<real>, param: string, val: Value, unit: string) returns (e: Option<Failure>)
      modifies this
      ensures var s := SysRow(env, old(sys), time, param, val, unit);
              (e.Some? ==> s == Err(e.value)) && (e.None? ==> s.Ok? && Snapshot() == old(Snapshot()).(sys := s.value))
    {
      if param == "DT" {
        var dt := Convert(env.timeToSec(val, unit));
        if dt.Err? {
          return Some(dt.error);
        }
        sys := sys.(dt := Some(dt.value));
      }
      if param == "CHECKPOINT" {
        if time.None? {
          return Some(UnboundTime);
        }
        sys := sys.(checkpoints := sys.checkpoints + [time.value]);
      } else if param == "ENDOFSIMULATION" {
        if sys.end.None? {
          if time.None? {
            return Some(UnboundTime);
          }
          sys := sys.(end := time);
        } else {
          return Some(SceneError(TwiceMsg));
        }
      }
      return None;
    }

    method ApplyNode(env: Env, time: Option<real>, obj: string, param: string, val: Value, unit: string)
      returns (e: Option<Failure>)
      modifies this
      ensures var s := NodeRow(env, old(Snapshot()), time, obj, param, val, unit);
              (e.Some? ==> s == Err(e.value)) && (e.None? ==> s == Ok(Snapshot()))
    {
      if param == "Q" {
        if obj in objects && "pset" in objects[obj] {
          return Some(SceneError(XorMsg(obj)));
        }
        var q := Convert(env.flowToKgs(val, unit));
        if q.Err? {
          return Some(q.error);
        }
        if time.None? {
          return Some(UnboundTime);
        }
        AppendEvents(obj, [("t", time.value), ("qInOut", q.value), ("behaviour", 1.0)]);
      } else if param == "P" {
        if obj in objects && "qInOut" in objects[obj] {
          return Some(SceneError(XorMsg(obj)));
        }
        if time.None? {
          return Some(UnboundTime);
        }
        var p := Convert(env.pressureToBar(val, unit));
        if p.Err? {
          return Some(p.error);
        }
        AppendEvents(obj, [("t", time.value), ("pset", p.value), ("behaviour", 0.0)]);
      }
      return None;
    }

    method ApplyActive(env: Env, time: Option<real>, obj: string, param: string, val: Value, unit: string)
      returns (e: Option<Failure>)
      modifies this
      ensures var s := ActiveRow(env, old(Snapshot()), time, obj, param, val, unit);
              (e.Some? ==> s == Err(e.value)) && (e.None? ==> s == Ok(Snapshot()))
    {
      if param == "OFF" || param == "BP" || (param == "CONF" && val == Text("FREE")) {
        if time.None? {
          return Some(UnboundTime);
        }
        var io, byIo := 1.0, 1.0;
        if param == "OFF" {
          io, byIo := 0.0, 0.0;
        } else if param == "CONF" {
          byIo := 0.0;
        }
        AppendEvents(obj, [("t_io", time.value), ("io", io)]);
        AppendEvents(obj, [("t_by_io", time.value), ("by_io", byIo)]);
      } else if param in TargetParams {
        if time.None? {
          return Some(UnboundTime);
        }
        var x := if param == "TARGET_Q" then Convert(env.flowToKgs(val, unit))
                 else Convert(env.pressureToBar(val, unit));
        if x.Err? {
          return Some(x.error);
        }
        var i := IndexOf(TargetParams, param);
        AppendEvents(obj, [("t_" + TargetKeys[i], time.value), (TargetKeys[i], Max0(x.value))]);
      }
      return None;
    }
  }

  // ---------------------------------------------------------------------
  // One row of the scene table

  /** The '!' column (a '!' marks a row to skip), the element, the
      parameter, the value, its unit and the time. */
  datatype Row = Row(bang: string, obj: string, param: string, value: string, unit: string, time: string)

  /** A row's value: a number if it reads as one, else the text. */
  datatype Value = Num(x: real) | Text(s: string)

  /** What the reader takes from outside the table: the float parser, the
      element types of the network by name, and the unit conversions to
      seconds, kg/s and bar (an Err carries the conversion's message). */
  datatype Env = Env(cast: string -> Option<real>,
                     types: map<string, string>,
                     timeToSec: (Value, string) -> Result<real, string>,
                     flowToKgs: (Value, string) -> Result<real, string>,
                     pressureToBar: (Value, string) -> Result<real, string>)

  function ValueOf(env: Env, text: string): Value
  {
    if env.cast(text).Some? then Num(env.cast(text).value) else Text(text)
  }

  function Convert(r: Result<real, string>): Result<real, Failure>
  {
    if r.Ok? then Ok(r.value) else Err(UnitFailure(r.error))
  }

  function Max0(x: real): real { if x < 0.0 then 0.0 else x }

  function Need(time: Option<real>): Result<real, Failure>
  {
    if time.Some? then Ok(time.value) else Err(UnboundTime)
  }

  const TwiceMsg := "'ENDOFSIMULATION' appeared twice!"
  const NoEndMsg := "There was no 'ENDOFSIMULATION' in in_event_list!"

  function UnknownMsg(obj: string): string
  {
    "did not recognize " + obj + " as 'Object'from event_list!"
  }

  function XorMsg(obj: string): string
  {
    obj + " can either be a p_node xor q_node!"
  }

  /** A '_SYS' row: DT sets the step size, CHECKPOINT adds a checkpoint,
      ENDOFSIMULATION sets the end time once. */
  function SysRow(env: Env, sys: Sys, time: Option<real>, param: string, val: Value, unit: string): Result<Sys, Failure>
  {
    var dt := if param == "DT" then Convert(env.timeToSec(val, unit)) else Ok(0.0);
    if dt.Err? then Err(dt.error)
    else
      var sys := if param == "DT" then sys.(dt := Some(dt.value)) else sys;
      if param == "CHECKPOINT" then
        var t := Need(time);
        if t.Err? then Err(t.error) else Ok(sys.(checkpoints := sys.checkpoints + [t.value]))
      else if param == "ENDOFSIMULATION" then
        if sys.end.None? then
          var t := Need(time);
          if t.Err? then Err(t.error) else Ok(sys.(end := Some(t.value)))
        else Err(SceneError(TwiceMsg))
      else Ok(sys)
  }

  /** A node row: Q gives an in/outflow event, P a pressure event, and a
      node may not have both. */
  function NodeRow(env: Env, ev: Events, time: Option<real>, obj: string, param: string, val: Value, unit: string)
    : Result<Events, Failure>
  {
    if param == "Q" then
      if obj in ev.objects && "pset" in ev.objects[obj] then Err(SceneError(XorMsg(obj)))
      else
        var q := Convert(env.flowToKgs(val, unit));
        if q.Err? then Err(q.error)
        else
          var t := Need(time);
          if t.Err? then Err(t.error)
          else Ok(Append(ev, obj, [("t", t.value), ("qInOut", q.value), ("behaviour", 1.0)]))
    else if param == "P" then
      if obj in ev.objects && "qInOut" in ev.objects[obj] then Err(SceneError(XorMsg(obj)))
      else
        var t := Need(time);
        if t.Err? then Err(t.error)
        else
          var p := Convert(env.pressureToBar(val, unit));
          if p.Err? then Err(p.error)
          else Ok(Append(ev, obj, [("t", t.value), ("pset", p.value), ("behaviour", 0.0)]))
    else Ok(ev)
  }

  /** A switch of a compressor or control valve: its io and by-pass io
      events. */
  function Switch(ev: Events, obj: string, t: real, io: real, byIo: real): Events
  {
    Append(Append(ev, obj, [("t_io", t), ("io", io)]), obj, [("t_by_io", t), ("by_io", byIo)])
  }

  const TargetParams: seq<string> :=
    ["TARGET_UPPER_PR", "TARGET_LOWER_PR", "TARGET_UPPER_PL", "TARGET_LOWER_PL", "TARGET_Q"]

  const TargetKeys: seq<string> :=
    ["target_upper_pR", "target_lower_pR", "target_upper_pL", "target_lower_pL", "target_q"]

  /** A compressor or control-valve row: OFF, BP (by-pass), CONF FREE, or a
      target value clamped at zero. */
  function ActiveRow(env: Env, ev: Events, time: Option<real>, obj: string, param: string, val: Value, unit: string)
    : Result<Events, Failure>
  {
    if param == "OFF" || param == "BP" || (param == "CONF" && val == Text("FREE")) then
      var t := Need(time);
      if t.Err? then Err(t.error)
      else if param == "OFF" then Ok(Switch(ev, obj, t.value, 0.0, 0.0))
      else if param == "BP" then Ok(Switch(ev, obj, t.value, 1.0, 1.0))
      else Ok(Switch(ev, obj, t.value, 1.0, 0.0))
    else if param in TargetParams then
      var t := Need(time);
      if t.Err? then Err(t.error)
      else
        var x := if param == "TARGET_Q" then Convert(env.flowToKgs(val, unit))
                 else Convert(env.pressureToBar(val, unit));
        if x.Err? then Err(x.error)
        else
          var i := IndexOf(TargetParams, param);
          Ok(Append(ev, obj, [("t_" + TargetKeys[i], t.value), (TargetKeys[i], Max0(x.value))]))
    else Ok(ev)
  }

  function IndexOf(s: seq<string>, x: string): (i: nat)
    requires x in s
    ensures i < |s| && s[i] == x
  {
    if s[0] == x then 0 else IndexOf(s[1..], x) + 1
  }

  /** Lines 95-176: one row, given the current events and the last time
      read; the result is the new events and the time in effect. */
  function Step(env: Env, ev: Events, time: Option<real>, row: Row): Result<(Events, Option<real>), Failure>
  {
    if row.bang == "!" then Ok((ev, time))
    else
      var val := ValueOf(env, row.value);
      var t := if row.time != "" then TimeToSec(row.time, env.cast) else Need(time);
      if row.time != "" && t.Err? then Err(t.error)
      else
        var time := if row.time != "" then Some(t.value) else time;
        var r := RowEffect(env, ev, time, row.obj, row.param, val, row.unit);
        if r.Err? then Err(r.error) else Ok((r.value, time))
  }

  function RowEffect(env: Env, ev: Events, time: Option<real>, obj: string, param: string, val: Value, unit: string)
    : Result<Events, Failure>
  {
    if obj == "_SYS" then
      var sys := SysRow(env, ev.sys, time, param, val, unit);
      if sys.Err? then Err(sys.error) else Ok(ev.(sys := sys.value))
    else if obj !in env.types then Err(SceneError(UnknownMsg(obj)))
    else
      var ty := env.types[obj];
      if Contains(ty, "node") then NodeRow(env, ev, time, obj, param, val, unit)
      else if Contains(ty, "common-valve") && (param == "ON" || param == "OFF") then
        var t := Need(time);
        if t.Err? then Err(t.error)
        else Ok(Append(ev, obj, [("t", t.value), ("io", if param != "OFF" then 1.0 else 0.0)]))
      else if Contains(ty, "compressor") || Contains(ty, "control-valve") then
        ActiveRow(env, ev, time, obj, param, val, unit)
      else Ok(ev)
  }

  /** The rows from the current state to the end of the table. */
  function Run(env: Env, ev: Events, time: Option<real>, rows: seq<Row>): Result<Events, Failure>
    decreases |rows|
  {
    if rows == [] then Ok(ev)
    else
      var s := Step(env, ev, time, rows[0]);
      if s.Err? then Err(s.error) else Run(env, s.value.0, s.value.1, rows[1..])
  }

  /** Lines 78-181: all rows, then the end time must have been given. */
  function Parse(env: Env, rows: seq<Row>): Result<Events, Failure>
  {
    var r := Run(env, Empty, None, rows);
    if r.Err? then r
    else if r.value.sys.end.None? then Err(SceneError(NoEndMsg))
    else r
  }

  // ---------------------------------------------------------------------
  // What a parsed scenario satisfies

  /** No node has both pressure and flow events. */
  predicate NoMixed(ev: Events)
  {
    forall o :: o in ev.objects ==> !("pset" in ev.objects[o] && "qInOut" in ev.objects[o])
  }

  predicate NonNegative(xs: seq<real>)
  {
    forall j :: 0 <= j < |xs| ==> xs[j] >= 0.0
  }

  lemma NonNegativeSnoc(xs: seq<real>, v: real)
    requires NonNegative(xs) && v >= 0.0
    ensures NonNegative(xs + [v])
  {
  }

  /** Every target value is at least zero. */
  predicate Clamped(ev: Events)
  {
    forall o, k :: o in ev.objects && k in ev.objects[o] && k in TargetKeys ==> NonNegative(ev.objects[o][k])
  }

  /** An append that adds pressure events only where there are no flow
      events (and the other way round), and only non-negative targets,
      keeps both properties. */
  lemma AppendKeeps(ev: Events, obj: string, entries: seq<(string, real)>)
    requires DistinctKeys(entries) && NoMixed(ev) && Clamped(ev)
    requires var before := if obj in ev.objects then ev.objects[obj] else map[];
             ("pset" in Keys(entries) ==> "qInOut" !in Keys(entries) && "qInOut" !in before)
             && ("qInOut" in Keys(entries) ==> "pset" !in before)
    requires forall i :: 0 <= i < |entries| && entries[i].0 in TargetKeys ==> entries[i].1 >= 0.0
    ensures NoMixed(Append(ev, obj, entries)) && Clamped(Append(ev, obj, entries))
  {
    var ev' := Append(ev, obj, entries);
    var before := if obj in ev.objects then ev.objects[obj] else map[];
    AppendGrows(ev, obj, entries);
    forall o, k | o in ev'.objects && k in ev'.objects[o] && k in TargetKeys
      ensures NonNegative(ev'.objects[o][k])
    {
      if o != obj {
        assert ev'.objects[o] == ev.objects[o];
        assert NonNegative(ev.objects[o][k]);
      } else if k in Keys(entries) {
        var i :| 0 <= i < |entries| && entries[i].0 == k;
        var xs := ListOf(before, k);
        assert NonNegative(xs) by {
          if k in before {
            assert xs == ev.objects[obj][k];
          }
        }
        assert entries[i].1 >= 0.0;
        assert ev'.objects[obj][k] == xs + [entries[i].1];
        NonNegativeSnoc(xs, entries[i].1);
      } else {
        assert ev'.objects[obj][k] == before[k] == ev.objects[obj][k];
        assert NonNegative(ev.objects[obj][k]);
      }
    }
  }

  lemma AppendKeepsKeys3(ev: Events, obj: string, a: string, x: real, b: string, y: real, c: string, z: real)
    requires NoMixed(ev) && Clamped(ev)
    requires a == "t" && c == "behaviour" && (b == "pset" || b == "qInOut")
    requires var before := if obj in ev.objects then ev.objects[obj] else map[];
             (b == "pset" ==> "qInOut" !in before) && (b == "qInOut" ==> "pset" !in before)
    ensures NoMixed(Append(ev, obj, [(a, x), (b, y), (c, z)])) && Clamped(Append(ev, obj, [(a, x), (b, y), (c, z)]))
  {
    var entries := [(a, x), (b, y), (c, z)];
    assert Keys(entries) == {a, b, c} by {
      assert entries[0].0 == a && entries[1].0 == b && entries[2].0 == c;
    }
    AppendKeeps(ev, obj, entries);
  }

  lemma AppendKeepsKeys2(ev: Events, obj: string, a: string, x: real, b: string, y: real)
    requires NoMixed(ev) && Clamped(ev)
    requires a !in TargetKeys && a != b
    requires a != "pset" && a != "qInOut" && b != "pset" && b != "qInOut"
    requires b in TargetKeys ==> y >= 0.0
    ensures NoMixed(Append(ev, obj, [(a, x), (b, y)])) && Clamped(Append(ev, obj, [(a, x), (b, y)]))
  {
    var entries := [(a, x), (b, y)];
    assert Keys(entries) == {a, b} by {
      assert entries[0].0 == a && entries[1].0 == b;
    }
    AppendKeeps(ev, obj, entries);
  }

  /** Every row that is read keeps both properties. */
  lemma StepKeeps(env: Env, ev: Events, time: Option<real>, row: Row)
    requires NoMixed(ev) && Clamped(ev) && Step(env, ev, time, row).Ok?
    ensures NoMixed(Step(env, ev, time, row).value.0) && Clamped(Step(env, ev, time, row).value.0)
  {
    if row.bang != "!" {
      var val := ValueOf(env, row.value);
      var now := if row.time != "" then Some(TimeToSec(row.time, env.cast).value) else time;
      var obj, param, unit := row.obj, row.param, row.unit;
      if obj != "_SYS" {
        var ty := env.types[obj];
        if Contains(ty, "node") {
          if param == "Q" {
            AppendKeepsKeys3(ev, obj, "t", now.value, "qInOut", Convert(env.flowToKgs(val, unit)).value, "behaviour", 1.0);
          } else if param == "P" {
            AppendKeepsKeys3(ev, obj, "t", now.value, "pset", Convert(env.pressureToBar(val, unit)).value, "behaviour", 0.0);
          }
        } else if Contains(ty, "common-valve") && (param == "ON" || param == "OFF") {
          AppendKeepsKeys2(ev, obj, "t", now.value, "io", if param != "OFF" then 1.0 else 0.0);
        } else if Contains(ty, "compressor") || Contains(ty, "control-valve") {
          ActiveKeeps(env, ev, now, obj, param, val, unit);
        }
      }
    }
  }

  lemma ActiveKeeps(env: Env, ev: Events, time: Option<real>, obj: string, param: string, val: Value, unit: string)
    requires NoMixed(ev) && Clamped(ev) && ActiveRow(env, ev, time, obj, param, val, unit).Ok?
    ensures NoMixed(ActiveRow(env, ev, time, obj, param, val, unit).value)
    ensures Clamped(ActiveRow(env, ev, time, obj, param, val, unit).value)
  {
    if param == "OFF" || param == "BP" || (param == "CONF" && val == Text("FREE")) {
      var t := time.value;
      var io := if param == "OFF" then 0.0 else 1.0;
      var byIo := if param == "OFF" || param != "BP" then 0.0 else 1.0;
      AppendKeepsKeys2(ev, obj, "t_io", t, "io", io);
      AppendKeepsKeys2(Append(ev, obj, [("t_io", t), ("io", io)]), obj, "t_by_io", t, "by_io", byIo);
    } else if param in TargetParams {
      var x := if param == "TARGET_Q" then Convert(env.flowToKgs(val, unit))
               else Convert(env.pressureToBar(val, unit));
      var i := IndexOf(TargetParams, param);
      AppendKeepsKeys2(ev, obj, "t_" + TargetKeys[i], time.value, TargetKeys[i], Max0(x.value));
    }
  }

  /** The rest of the table keeps both properties. */
  lemma {:induction false} RunKeeps(env: Env, ev: Events, time: Option<real>, rows: seq<Row>)
    requires NoMixed(ev) && Clamped(ev) && Run(env, ev, time, rows).Ok?
    ensures NoMixed(Run(env, ev, time, rows).value) && Clamped(Run(env, ev, time, rows).value)
    decreases |rows|
  {
    if rows != [] {
      var s := Step(env, ev, time, rows[0]);
      StepKeeps(env, ev, time, rows[0]);
      RunKeeps(env, s.value.0, s.value.1, rows[1..]);
    }
  }

  /** t0, the end time, the step size and the checkpoints handed to the
      simulator. */
  function Credentials(ev: Events): (r: (real, Option<real>, Option<real>, seq<real>))
    ensures r.0 == 0.0
  {
    (0.0, ev.sys.end, ev.sys.dt, ev.sys.checkpoints)
  }

  /** A scenario that parses has an end time, which the credentials carry
      with t0 = 0, has no node with both pressure and flow events, and has
      no negative target. */
  lemma ParseResult(env: Env, rows: seq<Row>)
    requires Parse(env, rows).Ok?
    ensures Parse(env, rows).value.sys.end.Some?
    ensures Credentials(Parse(env, rows).value) == (0.0, Parse(env, rows).value.sys.end,
                                                     Parse(env, rows).value.sys.dt,
                                                     Parse(env, rows).value.sys.checkpoints)
    ensures NoMixed(Parse(env, rows).value) && Clamped(Parse(env, rows).value)
  {
    RunKeeps(env, Empty, None, rows);
  }

  /** A skipped row, a second end time and an unknown element. */
  lemma StepRefuses(env: Env, ev: Events, time: Option<real>, row: Row)
    ensures row.bang == "!" ==> Step(env, ev, time, row) == Ok((ev, time))
    ensures row.bang != "!" && (row.time == "" || TimeToSec(row.time, env.cast).Ok?) &&
            row.obj == "_SYS" && row.param == "ENDOFSIMULATION" && ev.sys.end.Some? ==>
              Step(env, ev, time, row) == Err(SceneError(TwiceMsg))
    ensures row.bang != "!" && (row.time == "" || TimeToSec(row.time, env.cast).Ok?) &&
            row.obj != "_SYS" && row.obj !in env.types ==>
              Step(env, ev, time, row) == Err(SceneError(UnknownMsg(row.obj)))
  {
  }

  /** Once the end time is set, later rows either fail or leave it. */
  lemma {:induction false} RunKeepsEnd(env: Env, ev: Events, time: Option<real>, rows: seq<Row>)
    requires ev.sys.end.Some? && Run(env, ev, time, rows).Ok?
    ensures Run(env, ev, time, rows).value.sys.end == ev.sys.end
    decreases |rows|
  {
    if rows != [] {
      var s := Step(env, ev, time, rows[0]);
      assert s.value.0.sys.end == ev.sys.end by {
        StepKeepsEnd(env, ev, time, rows[0]);
      }
      RunKeepsEnd(env, s.value.0, s.value.1, rows[1..]);
    }
  }

  lemma StepKeepsEnd(env: Env, ev: Events, time: Option<real>, row: Row)
    requires ev.sys.end.Some? && Step(env, ev, time, row).Ok?
    ensures Step(env, ev, time, row).value.0.sys.end == ev.sys.end
  {
    if row.bang != "!" {
      var val := ValueOf(env, row.value);
      var now := if row.time != "" then Some(TimeToSec(row.time, env.cast).value) else time;
      if row.obj != "_SYS" {
        var ty := env.types[row.obj];
        if !Contains(ty, "node") && !(Contains(ty, "common-valve") && (row.param == "ON" || row.param == "OFF"))
           && (Contains(ty, "compressor") || Contains(ty, "control-valve")) {
          assert ActiveRow(env, ev, now, row.obj, row.param, val, row.unit).value.sys == ev.sys;
        }
      }
    }
  }

  /** Rows marked '!' take no part: the table reads as the table without
      them. */
  function Kept(rows: seq<Row>): seq<Row>
  {
    if rows == [] then [] else (if rows[0].bang == "!" then [] else [rows[0]]) + Kept(rows[1..])
  }

  lemma {:induction false} RunSkips(env: Env, ev: Events, time: Option<real>, rows: seq<Row>)
    ensures Run(env, ev, time, rows) == Run(env, ev, time, Kept(rows))
    decreases |rows|
  {
    if rows != [] {
      var kept := Kept(rows);
      if rows[0].bang == "!" {
        assert kept == Kept(rows[1..]);
        assert Step(env, ev, time, rows[0]) == Ok((ev, time));
        assert Run(env, ev, time, rows) == Run(env, ev, time, rows[1..]);
        RunSkips(env, ev, time, rows[1..]);
      } else {
        assert kept == [rows[0]] + Kept(rows[1..]);
        assert kept[1..] == Kept(rows[1..]);
        var s := Step(env, ev, time, rows[0]);
        if s.Ok? {
          RunSkips(env, s.value.0, s.value.1, rows[1..]);
        }
      }
    }
  }

  /** Lines 78-181, as the reader runs it over the table. */
  method ParseSceneCsv(env: Env, rows: seq<Row>) returns (r: Result<Events, Failure>)
    ensures r == Parse(env, rows)
  {
    var d := new EventDict();
    var time: Option<real> := None;
    var i := 0;
    while i < |rows|
      invariant i <= |rows|
      invariant Run(env, Empty, None, rows) == Run(env, d.Snapshot(), time, rows[i..])
    {
      assert rows[i..][1..] == rows[i + 1..];
      var s := d.ApplyRow(env, time, rows[i]);
      if s.Err? {
        return Err(s.error);
      }
      time := s.value;
      i := i + 1;
    }
    if d.sys.end.None? {
      return Err(SceneError(NoEndMsg));
    }
    return Ok(d.Snapshot());
  }
}
