// `to_dict(rules=...)` of the three models: a walk of the entity graph
// that writes each row's columns and, unless a rule excludes it, each of
// its relationships. At every entity the walk adds that model's own
// exclusion rules to the ones handed down, and a relationship key forks
// the rules below it ("-signups.camper" becomes "-camper" for each signup).

module Serializer {
  import opened Values
  import opened Query
  import opened Models

  /** The serializer's output. Cut marks where the walk ran past MaxDepth,
      i.e. a relationship cycle that no rule broke. */
  datatype Json = JInt(i: int) | JStr(s: string) | JNull | JArr(items: seq<Json>) | JObj(fields: map<string, Json>) | Cut

  type Rules = set<Path>

  /** Depth of the walk: an entity, its relationships, theirs. */
  const MaxDepth: nat := 3

  /** Output without any Cut in it. */
  predicate Complete(j: Json)
  {
    match j
    case Cut => false
    case JArr(items) => forall i :: 0 <= i < |items| ==> Complete(items[i])
    case JObj(fields) => forall k :: k in fields ==> Complete(fields[k])
    case _ => true
  }

  predicate Excluded(rules: Rules, key: string) { [key] in rules }

  /** The rules that apply below relationship `key`. */
  function Fork(rules: Rules, key: string): Rules
  {
    set p | p in rules && |p| > 1 && p[0] == key :: p[1..]
  }

  lemma ForkKeeps(rules: Rules, key: string, rest: string)
    requires [key, rest] in rules
    ensures Excluded(Fork(rules, key), rest)
  {
  }

  /** When the only rule below `key` is "-key.rest", forking at `key`
      leaves "-rest" alone. */
  lemma ForkOnly(rules: Rules, key: string, rest: string)
    requires forall p :: p in rules && |p| > 1 && p[0] == key ==> p == [key, rest]
    ensures forall q :: q in Fork(rules, key) ==> q == [rest]
  {
    forall q | q in Fork(rules, key) ensures q == [rest] {
      var p :| p in rules && |p| > 1 && p[0] == key && q == p[1..];
      assert p == [key, rest];
    }
  }

  /** ... and when that rule is there, "-rest" is all that is left. */
  lemma ForkExactly(rules: Rules, key: string, rest: string)
    requires forall p :: p in rules && |p| > 1 && p[0] == key ==> p == [key, rest]
    requires [key, rest] in rules
    ensures Fork(rules, key) == {[rest]}
  {
    ForkOnly(rules, key, rest);
    assert [key, rest][1..] == [rest];
  }

  /** The columns a rule such as "-name" leaves in place. */
  function Without(columns: map<string, Json>, rules: Rules): (r: map<string, Json>)
    ensures forall k :: k in r <==> k in columns && !Excluded(rules, k)
    ensures forall k :: k in r ==> r[k] == columns[k]
  {
    map k | k in columns && !Excluded(rules, k) :: columns[k]
  }

  lemma WithoutComplete(columns: map<string, Json>, rules: Rules)
    requires Complete(JObj(columns))
    ensures Complete(JObj(Without(columns, rules)))
  {
  }

  /** Rules that name no column leave every column in place. */
  lemma WithoutNothing(columns: map<string, Json>, rules: Rules)
    requires forall k :: k in columns ==> !Excluded(rules, k)
    ensures Without(columns, rules) == columns
  {
  }

  /** Rules whose only one-key rule is "-signups" leave every column of
      a row without a "signups" column. */
  lemma KeepsColumns(columns: map<string, Json>, rules: Rules)
    requires forall q :: q in rules ==> q == ["signups"]
    requires "signups" !in columns
    ensures Without(columns, rules) == columns
  {
    WithoutNothing(columns, rules);
  }

  const CamperKeys: set<string> := {"id", "name", "age"}
  const ActivityKeys: set<string> := {"id", "name", "difficulty"}
  const SignupKeys: set<string> := {"id", "time", "camper_id", "activity_id"}

  function CamperColumns(id: int, c: Camper): (r: map<string, Json>)
    ensures r.Keys == CamperKeys
  {
    map["id" := JInt(id), "name" := JStr(c.name), "age" := JInt(c.age)]
  }

  function ActivityColumns(id: int, a: Activity): (r: map<string, Json>)
    ensures r.Keys == ActivityKeys
  {
    map["id" := JInt(id), "name" := JStr(a.name), "difficulty" := JInt(a.difficulty)]
  }

  function KeyColumn(key: Option<int>): Json
  {
    match key
    case Some(k) => JInt(k)
    case None => JNull
  }

  function SignupColumns(id: int, s: Signup): (r: map<string, Json>)
    ensures r.Keys == SignupKeys
  {
    map["id" := JInt(id), "time" := JInt(s.time), "camper_id" := JInt(s.camperId),
        "activity_id" := KeyColumn(s.activityId)]
  }

  /** Camper.signups: the signups that name the camper, in key order. */
  function SignupsOfCamper(t: Tables, id: int): (r: seq<int>)
    ensures |r| == |set k | k in t.signups && t.signups[k].camperId == id|
    ensures forall k :: k in r <==> k in t.signups && t.signups[k].camperId == id
    ensures forall i, j :: 0 <= i < j < |r| ==> r[i] < r[j]
  {
    Ordered(set k | k in t.signups && t.signups[k].camperId == id)
  }

  /** Activity.signups: the signups that name the activity, in key order. */
  function SignupsOfActivity(t: Tables, id: int): (r: seq<int>)
    ensures |r| == |set k | k in t.signups && t.signups[k].activityId == Some(id)|
    ensures forall k :: k in r <==> k in t.signups && t.signups[k].activityId == Some(id)
    ensures forall i, j :: 0 <= i < j < |r| ==> r[i] < r[j]
  {
    Ordered(set k | k in t.signups && t.signups[k].activityId == Some(id))
  }

  /** camper.to_dict(rules): the columns no rule excludes and, unless
      "-signups" applies, the camper's signups. */
  function SerializeCamper(t: Tables, id: int, rules: Rules, fuel: nat): (r: Json)
    requires id in t.campers
    ensures r.Cut? <==> fuel == 0
    ensures fuel > 0 ==>
      && r.JObj?
      && (forall k :: k in r.fields <==> (k in CamperKeys || k == "signups") && !Excluded(rules, k))
      && (forall k :: k in r.fields && k in CamperKeys ==> r.fields[k] == CamperColumns(id, t.campers[id])[k])
    decreases fuel, 0
  {
    if fuel == 0 then Cut
    else
      var all := rules + CamperRules;
      var columns := Without(CamperColumns(id, t.campers[id]), all);
      if Excluded(all, "signups") then JObj(columns)
      else
        var nested := SerializeSignups(t, SignupsOfCamper(t, id), Fork(all, "signups"), fuel - 1);
        JObj(columns["signups" := JArr(nested)])
  }

  /** activity.to_dict(rules), the same walk from an activity. */
  function SerializeActivity(t: Tables, id: int, rules: Rules, fuel: nat): (r: Json)
    requires id in t.activities
    ensures r.Cut? <==> fuel == 0
    ensures fuel > 0 ==>
      && r.JObj?
      && (forall k :: k in r.fields <==> (k in ActivityKeys || k == "signups") && !Excluded(rules, k))
      && (forall k :: k in r.fields && k in ActivityKeys ==> r.fields[k] == ActivityColumns(id, t.activities[id])[k])
    decreases fuel, 0
  {
    if fuel == 0 then Cut
    else
      var all := rules + ActivityRules;
      var columns := Without(ActivityColumns(id, t.activities[id]), all);
      if Excluded(all, "signups") then JObj(columns)
      else
        var nested := SerializeSignups(t, SignupsOfActivity(t, id), Fork(all, "signups"), fuel - 1);
        JObj(columns["signups" := JArr(nested)])
  }

  /** A relationship collection: one serialized signup per key. */
  function SerializeSignups(t: Tables, ids: seq<int>, rules: Rules, fuel: nat): (r: seq<Json>)
    requires forall k :: k in ids ==> k in t.signups
    ensures |r| == |ids|
    decreases fuel, |ids| + 1
  {
    if ids == [] then []
    else [SerializeSignup(t, ids[0], rules, fuel)] + SerializeSignups(t, ids[1..], rules, fuel)
  }

  /** signup.to_dict(rules), with the backrefs `camper` and `activity`; a
      key that names no row reads as None. */
  function SerializeSignup(t: Tables, id: int, rules: Rules, fuel: nat): (r: Json)
    requires id in t.signups
    ensures r.Cut? <==> fuel == 0
    ensures fuel > 0 ==>
      && r.JObj?
      && (forall k :: k in r.fields <==> (k in SignupKeys || k == "camper" || k == "activity") && !Excluded(rules, k))
      && (forall k :: k in r.fields && k in SignupKeys ==> r.fields[k] == SignupColumns(id, t.signups[id])[k])
    decreases fuel, 0
  {
    if fuel == 0 then Cut
    else
      var all := rules + SignupRules;
      var s := t.signups[id];
      var columns := Without(SignupColumns(id, s), all);
      var withCamper :=
        if Excluded(all, "camper") then columns
        else columns["camper" := if s.camperId in t.campers
                                 then SerializeCamper(t, s.camperId, Fork(all, "camper"), fuel - 1)
                                 else JNull];
      var withActivity :=
        if Excluded(all, "activity") then withCamper
        else withCamper["activity" := if s.activityId.Some? && s.activityId.value in t.activities
                                      then SerializeActivity(t, s.activityId.value, Fork(all, "activity"), fuel - 1)
                                      else JNull];
      JObj(withActivity)
  }

  lemma {:induction false} SerializeSignupsAt(t: Tables, ids: seq<int>, rules: Rules, fuel: nat)
    requires forall k :: k in ids ==> k in t.signups
    ensures forall i :: 0 <= i < |ids| ==>
      SerializeSignups(t, ids, rules, fuel)[i] == SerializeSignup(t, ids[i], rules, fuel)
    decreases |ids|
  {
    if ids != [] {
      SerializeSignupsAt(t, ids[1..], rules, fuel);
      var out := SerializeSignups(t, ids, rules, fuel);
      forall i | 0 <= i < |ids| ensures out[i] == SerializeSignup(t, ids[i], rules, fuel) {
        if i > 0 { assert ids[1..][i - 1] == ids[i]; }
      }
    }
  }

  // ---------------------------------------------------------------------
  // Views

  /** With "-signups", a camper's output is the columns the rules leave
      and nothing else. */
  lemma CamperSummary(t: Tables, id: int, rules: Rules, fuel: nat)
    requires id in t.campers && Excluded(rules, "signups") && fuel >= 1
    ensures SerializeCamper(t, id, rules, fuel) == JObj(Without(CamperColumns(id, t.campers[id]), rules))
    ensures Complete(SerializeCamper(t, id, rules, fuel))
  {
    var columns := CamperColumns(id, t.campers[id]);
    assert Without(columns, rules + CamperRules) == Without(columns, rules);
    WithoutComplete(columns, rules);
  }

  /** With "-signups", an activity's output is its columns left by the
      rules and nothing else. */
  lemma ActivitySummary(t: Tables, id: int, rules: Rules, fuel: nat)
    requires id in t.activities && Excluded(rules, "signups") && fuel >= 1
    ensures SerializeActivity(t, id, rules, fuel) == JObj(Without(ActivityColumns(id, t.activities[id]), rules))
    ensures Complete(SerializeActivity(t, id, rules, fuel))
  {
    var columns := ActivityColumns(id, t.activities[id]);
    assert Without(columns, rules + ActivityRules) == Without(columns, rules);
    WithoutComplete(columns, rules);
  }

  /** What a signup shows as its camper or activity when those come with
      "-signups": the columns the rules leave, or None when the key names
      no row. */
  function CamperOf(t: Tables, s: Signup, rules: Rules): Json
  {
    if s.camperId in t.campers then JObj(Without(CamperColumns(s.camperId, t.campers[s.camperId]), rules)) else JNull
  }

  function ActivityOf(t: Tables, s: Signup, rules: Rules): Json
  {
    if s.activityId.Some? && s.activityId.value in t.activities
    then JObj(Without(ActivityColumns(s.activityId.value, t.activities[s.activityId.value]), rules))
    else JNull
  }

  /** A signup's fields under the rules handed to it, once Signup's own
      "-camper.signups" and "-activity.signups" have been added: the
      columns the rules leave, and its camper and activity, unless
      excluded, without their own signups. */
  function SignupFields(t: Tables, id: int, rules: Rules): map<string, Json>
    requires id in t.signups
  {
    var all := rules + SignupRules;
    var s := t.signups[id];
    var columns := Without(SignupColumns(id, s), rules);
    var withCamper := if Excluded(rules, "camper") then columns else columns["camper" := CamperOf(t, s, Fork(all, "camper"))];
    if Excluded(rules, "activity") then withCamper else withCamper["activity" := ActivityOf(t, s, Fork(all, "activity"))]
  }

  lemma SignupFieldsShape(t: Tables, id: int, rules: Rules)
    requires id in t.signups
    ensures var m := SignupFields(t, id, rules);
      var all := rules + SignupRules;
      && (forall k :: k in m <==> (k in SignupKeys || k == "camper" || k == "activity") && !Excluded(rules, k))
      && (forall k :: k in m && k in SignupKeys ==> m[k] == SignupColumns(id, t.signups[id])[k])
      && ("camper" in m ==> m["camper"] == CamperOf(t, t.signups[id], Fork(all, "camper")))
      && ("activity" in m ==> m["activity"] == ActivityOf(t, t.signups[id], Fork(all, "activity")))
      && Complete(JObj(m))
  {
    SignupFieldsKeys(t, id, rules);
    SignupFieldsComplete(t, id, rules);
  }

  lemma SignupFieldsKeys(t: Tables, id: int, rules: Rules)
    requires id in t.signups
    ensures var m := SignupFields(t, id, rules);
      && (forall k :: k in m <==> (k in SignupKeys || k == "camper" || k == "activity") && !Excluded(rules, k))
      && (forall k :: k in m && k in SignupKeys ==> m[k] == SignupColumns(id, t.signups[id])[k])
  {
    var s := t.signups[id];
    var columns := Without(SignupColumns(id, s), rules);
    assert forall k :: k in columns <==> k in SignupKeys && !Excluded(rules, k);
    assert "camper" !in SignupKeys && "activity" !in SignupKeys;
  }

  lemma SignupFieldsComplete(t: Tables, id: int, rules: Rules)
    requires id in t.signups
    ensures Complete(JObj(SignupFields(t, id, rules)))
  {
    var all := rules + SignupRules;
    var s := t.signups[id];
    var columns := Without(SignupColumns(id, s), rules);
    WithoutComplete(SignupColumns(id, s), rules);
    var withCamper := if Excluded(rules, "camper") then columns else columns["camper" := CamperOf(t, s, Fork(all, "camper"))];
    if !Excluded(rules, "camper") {
      if s.camperId in t.campers {
        WithoutComplete(CamperColumns(s.camperId, t.campers[s.camperId]), Fork(all, "camper"));
      }
      CompleteUpdate(columns, "camper", CamperOf(t, s, Fork(all, "camper")));
    }
    if !Excluded(rules, "activity") {
      if s.activityId.Some? && s.activityId.value in t.activities {
        WithoutComplete(ActivityColumns(s.activityId.value, t.activities[s.activityId.value]), Fork(all, "activity"));
      }
      CompleteUpdate(withCamper, "activity", ActivityOf(t, s, Fork(all, "activity")));
    }
  }

  /** Serializing a signup with any rules, at depth two or more, gives
      SignupFields: Signup's own rules stop the walk at its camper and its
      activity. */
  lemma {:induction false} SignupView(t: Tables, id: int, rules: Rules, fuel: nat)
    requires id in t.signups && fuel >= 2
    ensures SerializeSignup(t, id, rules, fuel) == JObj(SignupFields(t, id, rules))
  {
    var all := rules + SignupRules;
    var s := t.signups[id];
    var columns := Without(SignupColumns(id, s), all);
    assert columns == Without(SignupColumns(id, s), rules);
    assert Excluded(all, "camper") == Excluded(rules, "camper");
    assert Excluded(all, "activity") == Excluded(rules, "activity");
    ForkKeeps(all, "camper", "signups");
    ForkKeeps(all, "activity", "signups");
    NestedCamper(t, s, Fork(all, "camper"), fuel - 1);
    NestedActivity(t, s, Fork(all, "activity"), fuel - 1);
  }

  /** A signup's camper, walked with "-signups", is CamperOf. */
  lemma NestedCamper(t: Tables, s: Signup, rules: Rules, fuel: nat)
    requires Excluded(rules, "signups") && fuel >= 1
    ensures (if s.camperId in t.campers then SerializeCamper(t, s.camperId, rules, fuel) else JNull)
         == CamperOf(t, s, rules)
  {
    if s.camperId in t.campers {
      CamperSummary(t, s.camperId, rules, fuel);
    }
  }

  /** A signup's activity, walked with "-signups", is ActivityOf. */
  lemma NestedActivity(t: Tables, s: Signup, rules: Rules, fuel: nat)
    requires Excluded(rules, "signups") && fuel >= 1
    ensures (if s.activityId.Some? && s.activityId.value in t.activities
             then SerializeActivity(t, s.activityId.value, rules, fuel) else JNull)
         == ActivityOf(t, s, rules)
  {
    if s.activityId.Some? && s.activityId.value in t.activities {
      ActivitySummary(t, s.activityId.value, rules, fuel);
    }
  }

  /** A signup as nested in its camper's detail view: no "camper" key,
      and its activity, if shown, without signups. */
  predicate NestedInCamper(j: Json, camperId: int)
  {
    && j.JObj?
    && j.fields.Keys <= SignupKeys + {"activity"}
    && ("camper_id" in j.fields ==> j.fields["camper_id"] == JInt(camperId))
    && ("activity" in j.fields && j.fields["activity"].JObj? ==> "signups" !in j.fields["activity"].fields)
  }

  /** A signup as nested in its activity's detail view: no "activity"
      key, and its camper, if shown, without signups. */
  predicate NestedInActivity(j: Json, activityId: int)
  {
    && j.JObj?
    && j.fields.Keys <= SignupKeys + {"camper"}
    && ("activity_id" in j.fields ==> j.fields["activity_id"] == JInt(activityId))
    && ("camper" in j.fields && j.fields["camper"].JObj? ==> "signups" !in j.fields["camper"].fields)
  }

  lemma CompleteUpdate(m: map<string, Json>, key: string, v: Json)
    requires Complete(JObj(m)) && Complete(v)
    ensures Complete(JObj(m[key := v]))
  {
  }

  lemma SignupUnderCamper(t: Tables, sid: int, rules: Rules)
    requires sid in t.signups && Excluded(rules, "camper")
    ensures var j := JObj(SignupFields(t, sid, rules));
      NestedInCamper(j, t.signups[sid].camperId) && Complete(j)
  {
    SignupFieldsShape(t, sid, rules);
  }

  lemma SignupUnderActivity(t: Tables, sid: int, rules: Rules)
    requires sid in t.signups && t.signups[sid].activityId.Some? && Excluded(rules, "activity")
    ensures var j := JObj(SignupFields(t, sid, rules));
      NestedInActivity(j, t.signups[sid].activityId.value) && Complete(j)
  {
    SignupFieldsShape(t, sid, rules);
  }

  /** The signups of a camper, serialized with the "-camper" rule that
      the camper forks down to them: entry i is the i-th of its signups. */
  lemma {:induction false} SignupsUnderCamper(t: Tables, id: int, rules: Rules, fuel: nat)
    requires Excluded(rules, "camper") && fuel >= 2
    ensures var ids := SignupsOfCamper(t, id);
      var items := SerializeSignups(t, ids, rules, fuel);
      forall i :: 0 <= i < |items| ==>
        && items[i] == JObj(SignupFields(t, ids[i], rules))
        && NestedInCamper(items[i], id) && Complete(items[i])
  {
    var ids := SignupsOfCamper(t, id);
    SerializeSignupsAt(t, ids, rules, fuel);
    var items := SerializeSignups(t, ids, rules, fuel);
    forall i | 0 <= i < |items|
      ensures items[i] == JObj(SignupFields(t, ids[i], rules))
      ensures NestedInCamper(items[i], id) && Complete(items[i])
    {
      assert ids[i] in ids;
      SignupView(t, ids[i], rules, fuel);
      SignupUnderCamper(t, ids[i], rules);
    }
  }

  /** The signups of an activity, serialized with the "-activity" rule
      that the activity forks down to them: entry i is the i-th of its
      signups. */
  lemma {:induction false} SignupsUnderActivity(t: Tables, id: int, rules: Rules, fuel: nat)
    requires Excluded(rules, "activity") && fuel >= 2
    ensures var ids := SignupsOfActivity(t, id);
      var items := SerializeSignups(t, ids, rules, fuel);
      forall i :: 0 <= i < |items| ==>
        && items[i] == JObj(SignupFields(t, ids[i], rules))
        && NestedInActivity(items[i], id) && Complete(items[i])
  {
    var ids := SignupsOfActivity(t, id);
    SerializeSignupsAt(t, ids, rules, fuel);
    var items := SerializeSignups(t, ids, rules, fuel);
    forall i | 0 <= i < |items|
      ensures items[i] == JObj(SignupFields(t, ids[i], rules))
      ensures NestedInActivity(items[i], id) && Complete(items[i])
    {
      assert ids[i] in ids;
      SignupView(t, ids[i], rules, fuel);
      SignupUnderActivity(t, ids[i], rules);
    }
  }

  /** The detail view of a camper: the columns the call leaves and, unless
      the call excludes "signups", entry i is its i-th signup, none with
      the back-reference "camper" (Camper's "-signups.camper"). Whatever
      rules a caller adds, the walk ends within MaxDepth. */
  lemma CamperDetail(t: Tables, id: int, rules: Rules)
    requires id in t.campers
    ensures var j := SerializeCamper(t, id, rules, MaxDepth);
      var ids := SignupsOfCamper(t, id);
      && j.JObj?
      && Complete(j)
      && (forall k :: k in j.fields <==> (k in CamperKeys || k == "signups") && !Excluded(rules, k))
      && (forall k :: k in j.fields && k in CamperKeys ==> j.fields[k] == CamperColumns(id, t.campers[id])[k])
      && ("signups" in j.fields ==>
            && j.fields["signups"].JArr?
            && |j.fields["signups"].items| == |ids|
            && forall i :: 0 <= i < |ids| ==>
                 && j.fields["signups"].items[i] == JObj(SignupFields(t, ids[i], Fork(rules + CamperRules, "signups")))
                 && NestedInCamper(j.fields["signups"].items[i], id))
  {
    var all := rules + CamperRules;
    var columns := CamperColumns(id, t.campers[id]);
    assert Without(columns, all) == Without(columns, rules);
    WithoutComplete(columns, rules);
    if !Excluded(rules, "signups") {
      var sub := Fork(all, "signups");
      ForkKeeps(all, "signups", "camper");
      SignupsUnderCamper(t, id, sub, MaxDepth - 1);
      CompleteUpdate(Without(columns, rules), "signups", JArr(SerializeSignups(t, SignupsOfCamper(t, id), sub, MaxDepth - 1)));
    }
  }

  /** The detail view of an activity, the mirror image of CamperDetail
      (Activity's "-signups.activity"). */
  lemma ActivityDetail(t: Tables, id: int, rules: Rules)
    requires id in t.activities
    ensures var j := SerializeActivity(t, id, rules, MaxDepth);
      var ids := SignupsOfActivity(t, id);
      && j.JObj?
      && Complete(j)
      && (forall k :: k in j.fields <==> (k in ActivityKeys || k == "signups") && !Excluded(rules, k))
      && (forall k :: k in j.fields && k in ActivityKeys ==> j.fields[k] == ActivityColumns(id, t.activities[id])[k])
      && ("signups" in j.fields ==>
            && j.fields["signups"].JArr?
            && |j.fields["signups"].items| == |ids|
            && forall i :: 0 <= i < |ids| ==>
                 && j.fields["signups"].items[i] == JObj(SignupFields(t, ids[i], Fork(rules + ActivityRules, "signups")))
                 && NestedInActivity(j.fields["signups"].items[i], id))
  {
    var all := rules + ActivityRules;
    var columns := ActivityColumns(id, t.activities[id]);
    assert Without(columns, all) == Without(columns, rules);
    WithoutComplete(columns, rules);
    if !Excluded(rules, "signups") {
      var sub := Fork(all, "signups");
      ForkKeeps(all, "signups", "activity");
      SignupsUnderActivity(t, id, sub, MaxDepth - 1);
      CompleteUpdate(Without(columns, rules), "signups", JArr(SerializeSignups(t, SignupsOfActivity(t, id), sub, MaxDepth - 1)));
    }
  }

  /** A signup serialized with any call rules: the columns the rules
      leave, and its camper and activity without their own signups; the
      walk ends within MaxDepth. */
  lemma SignupDetail(t: Tables, id: int, rules: Rules)
    requires id in t.signups
    ensures var j := SerializeSignup(t, id, rules, MaxDepth);
      var all := rules + SignupRules;
      && j.JObj?
      && Complete(j)
      && (forall k :: k in j.fields <==> (k in SignupKeys || k == "camper" || k == "activity") && !Excluded(rules, k))
      && (forall k :: k in j.fields && k in SignupKeys ==> j.fields[k] == SignupColumns(id, t.signups[id])[k])
      && ("camper" in j.fields ==> j.fields["camper"] == CamperOf(t, t.signups[id], Fork(all, "camper")))
      && ("activity" in j.fields ==> j.fields["activity"] == ActivityOf(t, t.signups[id], Fork(all, "activity")))
  {
    SignupView(t, id, rules, MaxDepth);
    SignupFieldsShape(t, id, rules);
  }
}
