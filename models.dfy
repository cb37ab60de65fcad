// The three tables of the camp (campers, activities, signups), the
// per-field validators that guard every assignment to a camper or a signup,
// and the serialization exclusion rules each model declares.

module Models {
  import opened Values

  /** A row of `campers`; its key is the map key of the table. */
  datatype Camper = Camper(name: string, age: int)

  /** A row of `activities`. Neither column has a validator. */
  datatype Activity = Activity(name: string, difficulty: int)

  /** A row of `signups`: the hour of day and the two foreign keys. The
      activity key becomes NULL when its activity is deleted (see Detach). */
  datatype Signup = Signup(time: int, camperId: int, activityId: Option<int>)

  datatype Tables = Tables(campers: map<int, Camper>, activities: map<int, Activity>, signups: map<int, Signup>)

  predicate ValidName(name: string) { |name| > 0 }
  predicate ValidAge(age: int) { 8 <= age <= 18 }
  predicate ValidTime(time: int) { 0 <= time <= 23 }

  predicate ValidCamper(c: Camper) { ValidName(c.name) && ValidAge(c.age) }

  /** A signup whose foreign keys name rows that exist. */
  predicate Linked(t: Tables, s: Signup)
  {
    s.camperId in t.campers && (s.activityId.Some? ==> s.activityId.value in t.activities)
  }

  /** The persisted-state contract: every row passed its validators and no
      signup refers to a row that is not there. */
  predicate Consistent(t: Tables)
  {
    && (forall id :: id in t.campers ==> ValidCamper(t.campers[id]))
    && (forall id :: id in t.signups ==> ValidTime(t.signups[id].time) && Linked(t, t.signups[id]))
  }

  const NameError := "Name must be a string."
  const AgeError := "Age must be between 8 and 18"
  const TimeError := "Time must be within 0 and 23 hours."
  const ActivityMissing := "Activity not found."
  const CamperMissing := "Camper not found."

  /** Camper.name: a str of length at least one, stored as given. */
  function ValidateName(v: Value): (r: Result<string>)
    ensures r.Ok? <==> v.VStr? && ValidName(v.s)
    ensures r.Ok? ==> v == VStr(r.value)
    ensures r.Err? ==> r.error == NameError
  {
    if v.VStr? && |v.s| > 0 then Ok(v.s) else Err(NameError)
  }

  /** Camper.age: an int (not a bool, not a float) from 8 to 18 inclusive. */
  function ValidateAge(v: Value): (r: Result<int>)
    ensures r.Ok? <==> v.VInt? && ValidAge(v.i)
    ensures r.Ok? ==> v == VInt(r.value)
    ensures r.Err? ==> r.error == AgeError
  {
    if v.VInt? && 8 <= v.i <= 18 then Ok(v.i) else Err(AgeError)
  }

  /** Signup.time: an int from 0 to 23 inclusive. */
  function ValidateTime(v: Value): (r: Result<int>)
    ensures r.Ok? <==> v.VInt? && ValidTime(v.i)
    ensures r.Ok? ==> v == VInt(r.value)
    ensures r.Err? ==> r.error == TimeError
  {
    if v.VInt? && 0 <= v.i <= 23 then Ok(v.i) else Err(TimeError)
  }

  /** `Model.query.get(key)`: the row with that primary key, if any. */
  function Get<T>(table: map<int, T>, key: Value): (r: Option<T>)
    ensures r.Some? <==> key.VInt? && key.i in table
    ensures r.Some? ==> r.value == table[key.i]
  {
    if key.VInt? && key.i in table then Some(table[key.i]) else None
  }

  /** Signup.activity_id as intended: the id of an existing activity, or
      a not-found error that aborts the request. */
  function ValidateActivityId(activities: map<int, Activity>, v: Value): (r: Result<int>)
    ensures r.Ok? <==> v.VInt? && v.i in activities
    ensures r.Ok? ==> v == VInt(r.value)
    ensures r.Err? ==> r.error == ActivityMissing
  {
    match Get(activities, v)
    case Some(_) => Ok(v.i)
    case None => Err(ActivityMissing)
  }

  /** Signup.camper_id as intended: the id of an existing camper, or a
      not-found error that aborts the request. */
  function ValidateCamperId(campers: map<int, Camper>, v: Value): (r: Result<int>)
    ensures r.Ok? <==> v.VInt? && v.i in campers
    ensures r.Ok? ==> v == VInt(r.value)
    ensures r.Err? ==> r.error == CamperMissing
  {
    match Get(campers, v)
    case Some(_) => Ok(v.i)
    case None => Err(CamperMissing)
  }

  /** Every validator accepts what it returned, and returns it again. */
  lemma ValidatorsIdempotent(v: Value, campers: map<int, Camper>, activities: map<int, Activity>)
    ensures ValidateName(v).Ok? ==> ValidateName(VStr(ValidateName(v).value)) == ValidateName(v)
    ensures ValidateAge(v).Ok? ==> ValidateAge(VInt(ValidateAge(v).value)) == ValidateAge(v)
    ensures ValidateTime(v).Ok? ==> ValidateTime(VInt(ValidateTime(v).value)) == ValidateTime(v)
    ensures ValidateCamperId(campers, v).Ok? ==>
      ValidateCamperId(campers, VInt(ValidateCamperId(campers, v).value)) == ValidateCamperId(campers, v)
    ensures ValidateActivityId(activities, v).Ok? ==>
      ValidateActivityId(activities, VInt(ValidateActivityId(activities, v).value)) == ValidateActivityId(activities, v)
  {
  }

  /** Adding a valid camper keeps the tables consistent. */
  lemma AddCamperKeepsConsistent(t: Tables, id: int, c: Camper)
    requires Consistent(t) && ValidCamper(c)
    ensures Consistent(Tables(t.campers[id := c], t.activities, t.signups))
  {
  }

  /** Adding a signup with a valid hour and existing rows behind its keys
      keeps the tables consistent. */
  lemma AddSignupKeepsConsistent(t: Tables, id: int, s: Signup)
    requires Consistent(t) && ValidTime(s.time) && Linked(t, s)
    ensures Consistent(Tables(t.campers, t.activities, t.signups[id := s]))
  {
  }

  // ---------------------------------------------------------------------
  // The foreign-key validators as the source writes them. Neither raises:
  // on a missing row each RETURNS an exception object, which the ORM then
  // stores as the column's value. And the camper validator names its
  // parameters (camper_id, db_column) while the ORM passes (key, value),
  // so its lookup receives the column name "camper_id".

  /** What a validator hands to the ORM for the column: a value, or an
      exception object it returned instead of raising. */
  datatype Assigned = Column(v: Value) | ExceptionObject(message: string)

  const CamperIdKey := "camper_id"

  /** validate_activity_id as written. */
  function ActivityIdAsWritten(activities: map<int, Activity>, v: Value): (r: Assigned)
    ensures r.Column? <==> ValidateActivityId(activities, v).Ok?
    ensures r.Column? ==> r.v == v
    ensures r.ExceptionObject? ==> r.message == ActivityMissing
  {
    match Get(activities, v)
    case Some(_) => Column(v)
    case None => ExceptionObject(ActivityMissing)
  }

  /** validate_camper_id as written: called with (key, value), it looks up
      the key, i.e. the text "camper_id", instead of the submitted value. */
  function CamperIdAsWritten(campers: map<int, Camper>, key: string, value: Value): (r: Assigned)
    ensures r == ExceptionObject(CamperMissing)
  {
    var camperId := VStr(key);
    match Get(campers, camperId)
    case Some(_) => Column(camperId)
    case None => ExceptionObject(CamperMissing)
  }

  /** The swapped parameters reject a camper that exists: the intended
      validator accepts the id, the written one hands back an exception. */
  lemma CamperIdAsWrittenRejectsExisting(campers: map<int, Camper>, id: int)
    requires id in campers
    ensures ValidateCamperId(campers, VInt(id)) == Ok(id)
    ensures CamperIdAsWritten(campers, CamperIdKey, VInt(id)) == ExceptionObject(CamperMissing)
  {
  }

  /** A missing activity is not rejected by the validator as written: it
      yields a value for the column where the intended one raises. */
  lemma ActivityIdAsWrittenDoesNotRaise(activities: map<int, Activity>, id: int)
    requires id !in activities
    ensures ValidateActivityId(activities, VInt(id)).Err?
    ensures ActivityIdAsWritten(activities, VInt(id)) == ExceptionObject(ActivityMissing)
  {
  }

  // ---------------------------------------------------------------------
  // Serialization exclusion rules. "-a.b" is the path ["a", "b"]: leave out
  // key b of whatever sits under key a.

  type Path = seq<string>

  const ActivityRules: set<Path> := {["signups", "activity"]}
  const CamperRules: set<Path> := {["signups", "camper"]}
  const SignupRules: set<Path> := {["camper", "signups"], ["activity", "signups"]}

  // ---------------------------------------------------------------------
  // Deleting an activity. No cascade is declared on Activity.signups, so
  // the ORM's default applies: the signups that referred to the deleted
  // activity stay, with their activity key set to NULL.

  function Detach(signups: map<int, Signup>, activityId: int): (r: map<int, Signup>)
    ensures r.Keys == signups.Keys
    ensures forall k :: k in r ==> r[k].activityId != Some(activityId)
    ensures forall k :: k in r && signups[k].activityId == Some(activityId) ==> r[k].activityId == None
    ensures forall k :: k in r ==>
      r[k].time == signups[k].time && r[k].camperId == signups[k].camperId
    ensures forall k :: k in r && signups[k].activityId != Some(activityId) ==> r[k] == signups[k]
  {
    map k | k in signups ::
      if signups[k].activityId == Some(activityId) then signups[k].(activityId := None) else signups[k]
  }

  /** Deleting an activity as written. Clearing a signup's activity key is
      an assignment to activity_id, so validate_activity_id runs on it too:
      `Activity.query.get(None)` finds nothing and the column would hold an
      exception object, which the UPDATE cannot store. The commit fails and
      the tables stay as they were whenever some signup refers to the
      activity; otherwise there is nothing to clear. */
  function DeleteActivityAsWritten(t: Tables, activityId: int): (r: Option<Tables>)
    ensures r.None? <==> exists k :: k in t.signups && t.signups[k].activityId == Some(activityId)
    ensures r.Some? ==> r.value == Tables(t.campers, t.activities - {activityId}, t.signups)
  {
    var remaining := t.activities - {activityId};
    var referred := exists k :: k in t.signups && t.signups[k].activityId == Some(activityId);
    if referred && ActivityIdAsWritten(remaining, VNull).ExceptionObject? then None
    else
      var detached := Detach(t.signups, activityId);
      assert ActivityIdAsWritten(remaining, VNull).ExceptionObject? by {
        assert !ValidateActivityId(remaining, VNull).Ok?;
      }
      assert forall k :: k in t.signups ==> detached[k] == t.signups[k];
      assert detached == t.signups;
      Some(Tables(t.campers, remaining, detached))
  }

  /** Deleting an activity keeps the tables consistent. */
  lemma DeleteKeepsConsistent(t: Tables, activityId: int)
    requires Consistent(t)
    ensures Consistent(Tables(t.campers, t.activities - {activityId}, Detach(t.signups, activityId)))
  {
  }
}
