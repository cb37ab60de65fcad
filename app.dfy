// The request handlers of the camp API as operations of an in-memory
// store: one map per table, keyed by primary key. Each handler answers
// with a status and a JSON body; a request that fails validation or names
// a missing row answers 400 or 404 and changes nothing.

module App {
  import opened Values
  import opened Query
  import opened Models
  import opened Serializer

  datatype Response = Response(status: int, body: Json)

  /** The one body every validation failure gets. */
  const ValidationErrors: Json := JObj(map["errors" := JArr([JStr("validation errors")])])

  function ErrorBody(message: string): Json
  {
    JObj(map["error" := JStr(message)])
  }

  const CamperNotFound := "Camper not found"
  const ActivityNotFound := "Activity not found"

  /** ("-signups",): the list view. */
  const ListRules: Rules := {["signups"]}
  /** No call rules: the detail view. */
  const NoRules: Rules := {}
  /** What a camper's detail view hands each of its signups ("-camper",
      forked from Camper's "-signups.camper"). */
  const UnderCamper: Rules := {["camper"]}

  /** The camper `Camper(name=req.get("name"), age=req.get("age"))` builds:
      the name validator runs first, then the age validator. */
  function NewCamper(req: Payload): (r: Result<Camper>)
    ensures r.Ok? <==>
      && Field(req, "name").VStr? && ValidName(Field(req, "name").s)
      && Field(req, "age").VInt? && ValidAge(Field(req, "age").i)
    ensures r.Ok? ==>
      && ValidCamper(r.value)
      && Field(req, "name") == VStr(r.value.name)
      && Field(req, "age") == VInt(r.value.age)
  {
    var name := ValidateName(Field(req, "name"));
    if name.Err? then Err(name.error)
    else
      var age := ValidateAge(Field(req, "age"));
      if age.Err? then Err(age.error)
      else Ok(Camper(name.value, age.value))
  }

  /** The camper after `setattr(camper, attr, req.get(attr))` for every key
      of the payload, or the first validation error. Only "name" and "age"
      are modelled; any other key leaves the row as it is. */
  function PatchRow(row: Camper, req: Payload): (r: Result<Camper>)
    ensures r.Ok? <==>
      && ("name" in req ==> req["name"].VStr? && ValidName(req["name"].s))
      && ("age" in req ==> req["age"].VInt? && ValidAge(req["age"].i))
    ensures r.Ok? ==>
      && (if "name" in req then req["name"] == VStr(r.value.name) else r.value.name == row.name)
      && (if "age" in req then req["age"] == VInt(r.value.age) else r.value.age == row.age)
    ensures r.Ok? && ValidCamper(row) ==> ValidCamper(r.value)
  {
    var name := if "name" in req then ValidateName(req["name"]) else Ok(row.name);
    var age := if "age" in req then ValidateAge(req["age"]) else Ok(row.age);
    if name.Err? then Err(name.error)
    else if age.Err? then Err(age.error)
    else Ok(Camper(name.value, age.value))
  }

  /** The part of a payload whose keys are in `keys`. */
  function Only(req: Payload, keys: set<string>): Payload
  {
    map k | k in req && k in keys :: req[k]
  }

  /** Applying the same patch twice is the same as applying it once. */
  lemma PatchIdempotent(row: Camper, req: Payload)
    requires PatchRow(row, req).Ok?
    ensures PatchRow(PatchRow(row, req).value, req) == PatchRow(row, req)
  {
  }

  /** The signup `Signup(camper_id=..., activity_id=..., time=...)` builds,
      with the foreign-key validators as intended (see Findings in the
      README): they run in that order, and the first that fails aborts. */
  function NewSignup(t: Tables, req: Payload): (r: Result<Signup>)
    ensures r.Ok? <==>
      && Field(req, "camper_id").VInt? && Field(req, "camper_id").i in t.campers
      && Field(req, "activity_id").VInt? && Field(req, "activity_id").i in t.activities
      && Field(req, "time").VInt? && ValidTime(Field(req, "time").i)
    ensures r.Ok? ==>
      && Linked(t, r.value) && ValidTime(r.value.time) && r.value.activityId.Some?
      && Field(req, "camper_id") == VInt(r.value.camperId)
      && Field(req, "activity_id") == VInt(r.value.activityId.value)
      && Field(req, "time") == VInt(r.value.time)
  {
    var camperId := ValidateCamperId(t.campers, Field(req, "camper_id"));
    if camperId.Err? then Err(camperId.error)
    else
      var activityId := ValidateActivityId(t.activities, Field(req, "activity_id"));
      if activityId.Err? then Err(activityId.error)
      else
        var time := ValidateTime(Field(req, "time"));
        if time.Err? then Err(time.error)
        else Ok(Signup(time.value, camperId.value, Some(activityId.value)))
  }

  /** Signups.post as written: the foreign-key columns the two validators
      hand back, the time validator (which does raise), then the commit,
      which cannot store an exception object in a column. */
  function PostSignupAsWritten(t: Tables, req: Payload): (status: int)
    ensures status == 201 || status == 400
    ensures status == 201 <==>
      && CamperIdAsWritten(t.campers, CamperIdKey, Field(req, "camper_id")).Column?
      && ActivityIdAsWritten(t.activities, Field(req, "activity_id")).Column?
      && ValidateTime(Field(req, "time")).Ok?
  {
    var camperColumn := CamperIdAsWritten(t.campers, CamperIdKey, Field(req, "camper_id"));
    var activityColumn := ActivityIdAsWritten(t.activities, Field(req, "activity_id"));
    var time := ValidateTime(Field(req, "time"));
    if time.Err? then 400
    else if camperColumn.ExceptionObject? || activityColumn.ExceptionObject? then 400
    else 201
  }

  /** As written, no signup can be created, whatever the tables hold. */
  lemma PostSignupAsWrittenAlwaysFails(t: Tables, req: Payload)
    ensures PostSignupAsWritten(t, req) == 400
  {
  }

  /** A request that names an existing camper and activity at a valid hour
      is accepted by the intended validators and refused as written. */
  lemma SignupCounterexample()
    ensures var t := Tables(map[1 := Camper("Lee", 10)], map[1 := Activity("Archery", 2)], map[]);
      var req := map["camper_id" := VInt(1), "activity_id" := VInt(1), "time" := VInt(9)];
      && NewSignup(t, req) == Ok(Signup(9, 1, Some(1)))
      && PostSignupAsWritten(t, req) == 400
  {
  }

  /** ActivitiesById.delete as written: 404 for a missing id; otherwise the
      commit of DeleteActivityAsWritten, whose failure nothing catches, so
      the server answers 500. */
  function DeleteActivityAsWrittenStatus(t: Tables, id: int): (status: int)
    ensures status == 404 <==> id !in t.activities
    ensures status == 500 <==> id in t.activities && SignupsOfActivity(t, id) != []
    ensures status == 204 <==> id in t.activities && SignupsOfActivity(t, id) == []
  {
    if id !in t.activities then 404
    else
      match DeleteActivityAsWritten(t, id)
      case None => 500
      case Some(_) => 204
  }

  /** Deleting an activity one signup refers to: as written the commit fails
      and nothing changes, where the intended deletion keeps the signup with
      no activity. */
  lemma DeleteActivityCounterexample()
    ensures var t := Tables(map[1 := Camper("Lee", 10)], map[1 := Activity("Archery", 2)], map[1 := Signup(9, 1, Some(1))]);
      && DeleteActivityAsWritten(t, 1) == None
      && DeleteActivityAsWrittenStatus(t, 1) == 500
      && Detach(t.signups, 1) == map[1 := Signup(9, 1, None)]
      && Consistent(Tables(t.campers, t.activities - {1}, Detach(t.signups, 1)))
  {
  }

  /** `[c.to_dict(rules=("-signups",)) for c in Camper.query.all()]` */
  function CamperList(t: Tables): (r: seq<Json>)
    ensures |r| == |t.campers|
  {
    var ids := Ordered(t.campers.Keys);
    seq(|ids|, i requires 0 <= i < |ids| =>
      assert ids[i] in ids; SerializeCamper(t, ids[i], ListRules, MaxDepth))
  }

  /** `[a.to_dict(rules=("-signups",)) for a in Activity.query.all()]` */
  function ActivityList(t: Tables): (r: seq<Json>)
    ensures |r| == |t.activities|
  {
    var ids := Ordered(t.activities.Keys);
    seq(|ids|, i requires 0 <= i < |ids| =>
      assert ids[i] in ids; SerializeActivity(t, ids[i], ListRules, MaxDepth))
  }

  /** The list view's "-signups" leaves all of a camper's columns. */
  lemma CamperListed(t: Tables, id: int)
    requires id in t.campers
    ensures SerializeCamper(t, id, ListRules, MaxDepth) == JObj(CamperColumns(id, t.campers[id]))
  {
    CamperSummary(t, id, ListRules, MaxDepth);
    KeepsColumns(CamperColumns(id, t.campers[id]), ListRules);
  }

  /** The list view's "-signups" leaves all of an activity's columns. */
  lemma ActivityListed(t: Tables, id: int)
    requires id in t.activities
    ensures SerializeActivity(t, id, ListRules, MaxDepth) == JObj(ActivityColumns(id, t.activities[id]))
  {
    ActivitySummary(t, id, ListRules, MaxDepth);
    KeepsColumns(ActivityColumns(id, t.activities[id]), ListRules);
  }

  lemma CamperListAt(t: Tables, i: int)
    requires 0 <= i < |Ordered(t.campers.Keys)|
    ensures var ids := Ordered(t.campers.Keys);
      ids[i] in t.campers && CamperList(t)[i] == JObj(CamperColumns(ids[i], t.campers[ids[i]]))
  {
    var ids := Ordered(t.campers.Keys);
    assert ids[i] in ids;
    CamperListed(t, ids[i]);
  }

  lemma CamperListShape(t: Tables)
    ensures var items := CamperList(t);
      && |items| == |t.campers|
      && (forall i :: 0 <= i < |items| ==> items[i].JObj? && items[i].fields.Keys == CamperKeys)
      && (forall id :: id in t.campers ==> JObj(CamperColumns(id, t.campers[id])) in items)
  {
    var ids := Ordered(t.campers.Keys);
    var items := CamperList(t);
    forall i | 0 <= i < |ids|
      ensures items[i] == JObj(CamperColumns(ids[i], t.campers[ids[i]]))
    {
      CamperListAt(t, i);
    }
    forall id | id in t.campers ensures JObj(CamperColumns(id, t.campers[id])) in items {
      var i :| 0 <= i < |ids| && ids[i] == id;
      assert items[i] == JObj(CamperColumns(id, t.campers[id]));
    }
  }

  lemma ActivityListAt(t: Tables, i: int)
    requires 0 <= i < |Ordered(t.activities.Keys)|
    ensures var ids := Ordered(t.activities.Keys);
      ids[i] in t.activities && ActivityList(t)[i] == JObj(ActivityColumns(ids[i], t.activities[ids[i]]))
  {
    var ids := Ordered(t.activities.Keys);
    assert ids[i] in ids;
    ActivityListed(t, ids[i]);
  }

  lemma ActivityListShape(t: Tables)
    ensures var items := ActivityList(t);
      && |items| == |t.activities|
      && (forall i :: 0 <= i < |items| ==> items[i].JObj? && items[i].fields.Keys == ActivityKeys)
      && (forall id :: id in t.activities ==> JObj(ActivityColumns(id, t.activities[id])) in items)
  {
    var ids := Ordered(t.activities.Keys);
    var items := ActivityList(t);
    forall i | 0 <= i < |ids|
      ensures items[i] == JObj(ActivityColumns(ids[i], t.activities[ids[i]]))
    {
      ActivityListAt(t, i);
    }
    forall id | id in t.activities ensures JObj(ActivityColumns(id, t.activities[id])) in items {
      var i :| 0 <= i < |ids| && ids[i] == id;
      assert items[i] == JObj(ActivityColumns(id, t.activities[id]));
    }
  }

  /** `make_response(signup.to_dict(), 201)` for a signup just stored:
      its columns, its camper's and its activity's columns, and no
      "signups" anywhere. */
  method SignupCreated(t: Tables, id: int) returns (resp: Response)
    requires id in t.signups && Linked(t, t.signups[id]) && t.signups[id].activityId.Some?
    ensures var s := t.signups[id];
      resp == Response(201, JObj(SignupColumns(id, s)
                                   ["camper" := JObj(CamperColumns(s.camperId, t.campers[s.camperId]))]
                                   ["activity" := JObj(ActivityColumns(s.activityId.value, t.activities[s.activityId.value]))]))
  {
    SignupView(t, id, NoRules, MaxDepth);
    WithoutNothing(SignupColumns(id, t.signups[id]), NoRules);
    NestedWithoutRules(t, t.signups[id]);
    resp := Response(201, SerializeSignup(t, id, NoRules, MaxDepth));
  }

  /** `make_response(camper.to_dict(rules=("-signups",)), status)`: exactly
      the camper's columns. */
  method CamperSummaryResponse(t: Tables, id: int, status: int) returns (resp: Response)
    requires id in t.campers
    ensures resp == Response(status, JObj(CamperColumns(id, t.campers[id])))
  {
    CamperListed(t, id);
    resp := Response(status, SerializeCamper(t, id, ListRules, MaxDepth));
  }

  /** `camper.to_dict()`: the camper's columns and its signups, entry i
      being its i-th signup in key order, shown under "-camper". */
  lemma DetailView(t: Tables, id: int)
    requires id in t.campers
    ensures var j := SerializeCamper(t, id, NoRules, MaxDepth);
      var ids := SignupsOfCamper(t, id);
      && j.JObj?
      && j.fields.Keys == CamperKeys + {"signups"}
      && (forall k :: k in CamperKeys ==> j.fields[k] == CamperColumns(id, t.campers[id])[k])
      && j.fields["signups"].JArr?
      && |j.fields["signups"].items| == |ids|
      && (forall i :: 0 <= i < |ids| ==>
            && j.fields["signups"].items[i] == JObj(SignupFields(t, ids[i], UnderCamper))
            && NestedInCamper(j.fields["signups"].items[i], id))
  {
    CamperDetail(t, id, NoRules);
    ForkExactly(NoRules + CamperRules, "signups", "camper");
    DetailKeys(t, id);
  }

  lemma DetailKeys(t: Tables, id: int)
    requires id in t.campers
    ensures SerializeCamper(t, id, NoRules, MaxDepth).JObj?
    ensures SerializeCamper(t, id, NoRules, MaxDepth).fields.Keys == CamperKeys + {"signups"}
  {
    var j := SerializeCamper(t, id, NoRules, MaxDepth);
    assert forall k :: k in j.fields <==> k in CamperKeys + {"signups"};
  }

  /** Without call rules, a signup's camper and activity show all their
      columns. */
  lemma NestedWithoutRules(t: Tables, s: Signup)
    requires Linked(t, s) && s.activityId.Some?
    ensures CamperOf(t, s, Fork(NoRules + SignupRules, "camper")) == JObj(CamperColumns(s.camperId, t.campers[s.camperId]))
    ensures ActivityOf(t, s, Fork(NoRules + SignupRules, "activity"))
         == JObj(ActivityColumns(s.activityId.value, t.activities[s.activityId.value]))
  {
    NestedCamperWithoutRules(t, s);
    NestedActivityWithoutRules(t, s);
  }

  lemma NestedCamperWithoutRules(t: Tables, s: Signup)
    requires s.camperId in t.campers
    ensures CamperOf(t, s, Fork(NoRules + SignupRules, "camper")) == JObj(CamperColumns(s.camperId, t.campers[s.camperId]))
  {
    ForkOnly(NoRules + SignupRules, "camper", "signups");
    KeepsColumns(CamperColumns(s.camperId, t.campers[s.camperId]), Fork(NoRules + SignupRules, "camper"));
  }

  lemma NestedActivityWithoutRules(t: Tables, s: Signup)
    requires s.activityId.Some? && s.activityId.value in t.activities
    ensures ActivityOf(t, s, Fork(NoRules + SignupRules, "activity"))
         == JObj(ActivityColumns(s.activityId.value, t.activities[s.activityId.value]))
  {
    ForkOnly(NoRules + SignupRules, "activity", "signups");
    KeepsColumns(ActivityColumns(s.activityId.value, t.activities[s.activityId.value]), Fork(NoRules + SignupRules, "activity"));
  }

  /** The store's invariant: the tables are consistent, and each key
      counter is the key the next row of its table gets. */
  ghost predicate Invariant(t: Tables, nextCamperId: int, nextSignupId: int)
  {
    && Consistent(t)
    && NextAfter(t.campers.Keys, nextCamperId)
    && NextAfter(t.signups.Keys, nextSignupId)
  }

  /** Storing a valid camper under the next key keeps the invariant. */
  lemma InsertCamperKeeps(t: Tables, nextCamperId: int, nextSignupId: int, c: Camper)
    requires Invariant(t, nextCamperId, nextSignupId) && ValidCamper(c)
    ensures nextCamperId !in t.campers
    ensures Invariant(Tables(t.campers[nextCamperId := c], t.activities, t.signups), nextCamperId + 1, nextSignupId)
  {
    AddCamperKeepsConsistent(t, nextCamperId, c);
    NextAfterInsert(t.campers.Keys, nextCamperId);
    assert t.campers[nextCamperId := c].Keys == t.campers.Keys + {nextCamperId};
  }

  /** Overwriting a camper with a valid row keeps the invariant. */
  lemma ReplaceCamperKeeps(t: Tables, nextCamperId: int, nextSignupId: int, id: int, c: Camper)
    requires Invariant(t, nextCamperId, nextSignupId) && id in t.campers && ValidCamper(c)
    ensures Invariant(Tables(t.campers[id := c], t.activities, t.signups), nextCamperId, nextSignupId)
  {
    AddCamperKeepsConsistent(t, id, c);
    assert t.campers[id := c].Keys == t.campers.Keys;
  }

  /** Deleting an activity and detaching its signups keeps the invariant. */
  lemma DeleteActivityKeeps(t: Tables, nextCamperId: int, nextSignupId: int, id: int)
    requires Invariant(t, nextCamperId, nextSignupId)
    ensures Invariant(Tables(t.campers, t.activities - {id}, Detach(t.signups, id)), nextCamperId, nextSignupId)
  {
    DeleteKeepsConsistent(t, id);
  }

  /** Storing a linked signup with a valid hour under the next key keeps
      the invariant. */
  lemma InsertSignupKeeps(t: Tables, nextCamperId: int, nextSignupId: int, s: Signup)
    requires Invariant(t, nextCamperId, nextSignupId) && ValidTime(s.time) && Linked(t, s)
    ensures nextSignupId !in t.signups
    ensures Invariant(Tables(t.campers, t.activities, t.signups[nextSignupId := s]), nextCamperId, nextSignupId + 1)
  {
    AddSignupKeepsConsistent(t, nextSignupId, s);
    NextAfterInsert(t.signups.Keys, nextSignupId);
    assert t.signups[nextSignupId := s].Keys == t.signups.Keys + {nextSignupId};
  }

  class Store {
    var campers: map<int, Camper>
    var activities: map<int, Activity>
    var signups: map<int, Signup>
    /** The keys the next camper and the next signup get. */
    var nextCamperId: int
    var nextSignupId: int

    function Db(): Tables
      reads this
    {
      Tables(campers, activities, signups)
    }

    ghost predicate Valid()
      reads this
    {
      Invariant(Db(), nextCamperId, nextSignupId)
    }

    /** A store holding the seeded tables (activities are only ever
        seeded). */
    constructor (seed: Tables)
      requires Consistent(seed)
      ensures Valid() && Db() == seed
    {
      var camperKey := NextKey(seed.campers.Keys);
      var signupKey := NextKey(seed.signups.Keys);
      campers := seed.campers;
      activities := seed.activities;
      signups := seed.signups;
      nextCamperId := camperKey;
      nextSignupId := signupKey;
      new;
      assert Db() == seed;
    }

    /** GET /campers: one summary per camper, none with "signups". */
    function ListCampers(): (r: Response)
      reads this
      ensures r.status == 200 && r.body.JArr?
      ensures |r.body.items| == |campers|
      ensures forall i :: 0 <= i < |r.body.items| ==>
        r.body.items[i].JObj? && r.body.items[i].fields.Keys == CamperKeys
      ensures forall id :: id in campers ==> JObj(CamperColumns(id, campers[id])) in r.body.items
    {
      CamperListShape(Db());
      Response(200, JArr(CamperList(Db())))
    }

    /** POST /campers: 201 and the new camper's summary when name and age
        pass their validators, otherwise 400 and no row. */
    method PostCamper(req: Payload) returns (resp: Response)
      requires Valid()
      modifies this
      ensures Valid()
      ensures activities == old(activities) && signups == old(signups)
      ensures nextSignupId == old(nextSignupId)
      ensures NewCamper(req).Ok? ==>
        && old(nextCamperId) !in old(campers)
        && campers == old(campers)[old(nextCamperId) := NewCamper(req).value]
        && nextCamperId == old(nextCamperId) + 1
        && resp == Response(201, JObj(CamperColumns(old(nextCamperId), NewCamper(req).value)))
      ensures NewCamper(req).Err? ==>
        && campers == old(campers) && nextCamperId == old(nextCamperId)
        && resp == Response(400, ValidationErrors)
    {
      var name := ValidateName(Field(req, "name"));
      if name.Err? {
        resp := Response(400, ValidationErrors);
        return;
      }
      var age := ValidateAge(Field(req, "age"));
      if age.Err? {
        resp := Response(400, ValidationErrors);
        return;
      }
      var id := nextCamperId;
      InsertCamperKeeps(Db(), id, nextSignupId, Camper(name.value, age.value));
      campers := campers[id := Camper(name.value, age.value)];
      nextCamperId := id + 1;
      resp := CamperSummaryResponse(Db(), id, 201);
    }

    /** GET /campers/<id>: 404 for a missing camper; otherwise 200 and the
        detail view, whose signups are exactly the camper's, none of them
        with the back-reference "camper". */
    method GetCamper(id: int) returns (r: Response)
      ensures id !in campers ==> r == Response(404, ErrorBody(CamperNotFound))
      ensures id in campers ==>
        && r.status == 200 && r.body.JObj?
        && r.body.fields.Keys == CamperKeys + {"signups"}
        && (forall k :: k in CamperKeys ==> r.body.fields[k] == CamperColumns(id, campers[id])[k])
        && r.body.fields["signups"].JArr?
        && |r.body.fields["signups"].items| == |set k | k in signups && signups[k].camperId == id|
        && (forall i :: 0 <= i < |r.body.fields["signups"].items| ==>
              && r.body.fields["signups"].items[i] == JObj(SignupFields(Db(), SignupsOfCamper(Db(), id)[i], UnderCamper))
              && NestedInCamper(r.body.fields["signups"].items[i], id))
    {
      if id in campers {
        DetailView(Db(), id);
        r := Response(200, SerializeCamper(Db(), id, NoRules, MaxDepth));
      } else {
        r := Response(404, ErrorBody(CamperNotFound));
      }
    }

    /** PATCH /campers/<id>: 404 for a missing camper; 400 and the row
        untouched when a given field fails its validator; otherwise the
        given fields are set, the others kept, and 202 with the summary. */
    method PatchCamper(id: int, req: Payload) returns (resp: Response)
      requires Valid()
      modifies this
      ensures Valid()
      ensures activities == old(activities) && signups == old(signups)
      ensures nextCamperId == old(nextCamperId) && nextSignupId == old(nextSignupId)
      ensures id !in old(campers) ==>
        campers == old(campers) && resp == Response(404, ErrorBody(CamperNotFound))
      ensures id in old(campers) && PatchRow(old(campers)[id], req).Err? ==>
        campers == old(campers) && resp == Response(400, ValidationErrors)
      ensures id in old(campers) && PatchRow(old(campers)[id], req).Ok? ==>
        && campers == old(campers)[id := PatchRow(old(campers)[id], req).value]
        && resp == Response(202, JObj(CamperColumns(id, PatchRow(old(campers)[id], req).value)))
    {
      if id !in campers {
        resp := Response(404, ErrorBody(CamperNotFound));
        return;
      }
      var row := campers[id];
      var camper := row;
      var pending := req.Keys;
      while pending != {}
        invariant pending <= req.Keys
        invariant PatchRow(row, Only(req, req.Keys - pending)) == Ok(camper)
        decreases pending
      {
        if forall k :: k !in pending { assert false; }
        var attr :| attr in pending;
        if attr == "name" {
          var name := ValidateName(req[attr]);
          if name.Err? {
            resp := Response(400, ValidationErrors);
            return;
          }
          camper := camper.(name := name.value);
        } else if attr == "age" {
          var age := ValidateAge(req[attr]);
          if age.Err? {
            resp := Response(400, ValidationErrors);
            return;
          }
          camper := camper.(age := age.value);
        }
        pending := pending - {attr};
      }
      assert Only(req, req.Keys - pending) == req;
      ReplaceCamperKeeps(Db(), nextCamperId, nextSignupId, id, camper);
      campers := campers[id := camper];
      resp := CamperSummaryResponse(Db(), id, 202);
    }

    /** GET /activities: one summary per activity, none with "signups". */
    function ListActivities(): (r: Response)
      reads this
      ensures r.status == 200 && r.body.JArr?
      ensures |r.body.items| == |activities|
      ensures forall i :: 0 <= i < |r.body.items| ==>
        r.body.items[i].JObj? && r.body.items[i].fields.Keys == ActivityKeys
      ensures forall id :: id in activities ==> JObj(ActivityColumns(id, activities[id])) in r.body.items
    {
      ActivityListShape(Db());
      Response(200, JArr(ActivityList(Db())))
    }

    /** DELETE /activities/<id>: removes exactly that activity (its
        signups lose their activity key) and answers 204 with an empty
        body; a missing id answers 404 and changes nothing. */
    method DeleteActivity(id: int) returns (resp: Response)
      requires Valid()
      modifies this
      ensures Valid()
      ensures campers == old(campers)
      ensures nextCamperId == old(nextCamperId) && nextSignupId == old(nextSignupId)
      ensures id in old(activities) ==>
        && activities == old(activities) - {id}
        && signups == Detach(old(signups), id)
        && resp == Response(204, JObj(map[]))
      ensures id !in old(activities) ==>
        && activities == old(activities) && signups == old(signups)
        && resp == Response(404, ErrorBody(ActivityNotFound))
    {
      if id in activities {
        DeleteActivityKeeps(Db(), nextCamperId, nextSignupId, id);
        activities := activities - {id};
        signups := Detach(signups, id);
        resp := Response(204, JObj(map[]));
      } else {
        resp := Response(404, ErrorBody(ActivityNotFound));
      }
    }

    /** POST /signups: 201 and the signup with its camper and activity
        (neither with "signups") when the camper and activity exist and
        the hour is valid; otherwise 400 and no row. */
    method PostSignup(req: Payload) returns (resp: Response)
      requires Valid()
      modifies this
      ensures Valid()
      ensures campers == old(campers) && activities == old(activities)
      ensures nextCamperId == old(nextCamperId)
      ensures NewSignup(old(Db()), req).Ok? ==>
        var s := NewSignup(old(Db()), req).value;
        && old(nextSignupId) !in old(signups)
        && signups == old(signups)[old(nextSignupId) := s]
        && nextSignupId == old(nextSignupId) + 1
        && resp == Response(201, JObj(SignupColumns(old(nextSignupId), s)
                                        ["camper" := JObj(CamperColumns(s.camperId, campers[s.camperId]))]
                                        ["activity" := JObj(ActivityColumns(s.activityId.value, activities[s.activityId.value]))]))
      ensures NewSignup(old(Db()), req).Err? ==>
        && signups == old(signups) && nextSignupId == old(nextSignupId)
        && resp == Response(400, ValidationErrors)
    {
      var camperId := ValidateCamperId(campers, Field(req, "camper_id"));
      if camperId.Err? {
        resp := Response(400, ValidationErrors);
        return;
      }
      var activityId := ValidateActivityId(activities, Field(req, "activity_id"));
      if activityId.Err? {
        resp := Response(400, ValidationErrors);
        return;
      }
      var time := ValidateTime(Field(req, "time"));
      if time.Err? {
        resp := Response(400, ValidationErrors);
        return;
      }
      var id := nextSignupId;
      var signup := Signup(time.value, camperId.value, Some(activityId.value));
      assert NewSignup(Db(), req) == Ok(signup);
      InsertSignupKeeps(Db(), nextCamperId, id, signup);
      signups := signups[id := signup];
      nextSignupId := id + 1;
      resp := SignupCreated(Db(), id);
    }
  }

  /** Creating a camper and then fetching it: the summary of the new row,
      then its detail view with the same name and age and no signups. */
  method CreateThenGet(store: Store) returns (id: int, created: Response, fetched: Response)
    requires store.Valid()
    modifies store
    ensures store.Valid()
    ensures created == Response(201, JObj(CamperColumns(id, Camper("Lee", 10))))
    ensures fetched == Response(200, JObj(CamperColumns(id, Camper("Lee", 10))["signups" := JArr([])]))
  {
    var req := map["name" := VStr("Lee"), "age" := VInt(10)];
    assert Field(req, "name") == VStr("Lee") && Field(req, "age") == VInt(10);
    ghost var before := store.signups;
    id := store.nextCamperId;
    created := store.PostCamper(req);
    fetched := store.GetCamper(id);
    assert (set k | k in store.signups && store.signups[k].camperId == id) == {} by {
      forall k | k in store.signups ensures store.signups[k].camperId != id {
        assert k in before;
      }
    }
    assert fetched.body.fields == CamperColumns(id, Camper("Lee", 10))["signups" := JArr([])];
  }
}
