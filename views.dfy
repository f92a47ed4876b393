/**
 * The user endpoints over an in-memory store of users, Histories and
 * Intakes. Users are keyed by primary key; Histories and Intakes are kept in
 * primary-key order, which is the order in which they were created.
 *
 * "Today" is a parameter of every operation that needs it.
 */
module Views {
  import opened Outcomes
  import opened Dates
  import opened Models

  /** A decimal field of a request body, as the field validator sees it. */
  datatype DecimalParam =
    | Missing             // the key is absent
    | Null                // the key is present with a null value
    | Malformed           // not a decimal, or more than two decimal places
    | Given(value: int)   // a decimal with at most two places, in hundredths

  /** A required two-place decimal field of at most `max` hundredths in magnitude. */
  function ValidateDecimal(p: DecimalParam, max: nat): (r: Result<int>)
    ensures r.Ok? <==> p.Given? && FitsDigits(p.value, max)
    ensures r.Ok? ==> r.value == p.value
    ensures r.Err? ==> r.error == ValidationError
  {
    match p
    case Given(v) => if FitsDigits(v, max) then Ok(v) else Err(ValidationError)
    case _ => Err(ValidationError)
  }

  /** The `name` field: at most 128 characters, not blank, and no NUL character. */
  predicate ValidName(name: string) {
    0 < |name| <= 128 && forall i | 0 <= i < |name| :: name[i] != '\0'
  }

  /** `get_object`: the user with primary key `pk`, or NotFound. */
  function GetObject(users: map<nat, User>, pk: nat): (r: Result<User>)
    ensures r.Err? <==> pk !in users
    ensures r.Err? ==> r.error == NotFound
    ensures r.Ok? ==> r.value == users[pk]
  {
    if pk in users then Ok(users[pk]) else Err(NotFound)
  }

  /** `History.objects.filter(user_id=userId, date=date).first()`. */
  function FindHistory(hs: seq<History>, userId: nat, date: Date): (r: Option<History>)
    ensures r.None? <==> forall k | 0 <= k < |hs| :: !HasKey(hs[k], userId, date)
    ensures r.Some? ==> exists k | 0 <= k < |hs| :: hs[k] == r.value && HasKey(hs[k], userId, date)
                                                    && forall j | 0 <= j < k :: !HasKey(hs[j], userId, date)
    decreases |hs|
  {
    if hs == [] then None
    else if HasKey(hs[0], userId, date) then Some(hs[0])
    else
      var r := FindHistory(hs[1..], userId, date);
      assert forall k | 0 <= k < |hs[1..]| :: hs[1..][k] == hs[k + 1];
      if r.Some? then
        var k :| 0 <= k < |hs[1..]| && hs[1..][k] == r.value && HasKey(hs[1..][k], userId, date)
                  && forall j | 0 <= j < k :: !HasKey(hs[1..][j], userId, date);
        assert hs[k + 1] == r.value;
        assert forall j | 0 <= j < k + 1 :: !HasKey(hs[j], userId, date) by {
          forall j | 0 <= j < k + 1 ensures !HasKey(hs[j], userId, date) {
            if j > 0 { assert hs[j] == hs[1..][j - 1]; }
          }
        }
        r
      else r
  }

  lemma {:induction false} FindHistoryAfterAppend(hs: seq<History>, h: History, userId: nat, date: Date)
    requires FindHistory(hs, userId, date).None? && HasKey(h, userId, date)
    ensures FindHistory(hs + [h], userId, date) == Some(h)
    decreases |hs|
  {
    if hs != [] {
      assert (hs + [h])[1..] == hs[1..] + [h];
      FindHistoryAfterAppend(hs[1..], h, userId, date);
    }
  }

  /**
   * `get_or_create_point_in_history` as a function of the state it reads:
   * the result and the Histories afterwards. A new History takes the next
   * primary key, the user's current daily goal and today's date; saving it
   * fails if that goal does not fit the `goal` column.
   */
  function ResolveDay(users: map<nat, User>, hs: seq<History>, nextId: nat, pk: nat, today: Date)
    : (out: (Result<History>, seq<History>))
    ensures pk !in users ==> out == (Err(NotFound), hs)
    ensures out.0.Ok? ==> HasKey(out.0.value, pk, today) && FindHistory(out.1, pk, today) == Some(out.0.value)
    ensures FindHistory(hs, pk, today).Some? && pk in users ==> out == (Ok(FindHistory(hs, pk, today).value), hs)
    ensures out.1 != hs ==> FindHistory(hs, pk, today).None? && out.0.Ok? && out.1 == hs + [out.0.value]
    ensures pk in users && FindHistory(hs, pk, today).None? ==>
              var h := History(nextId, pk, DailyGoal(users[pk].weight), today);
              out == if FitsDigits(h.goal, GoalMax) then (Ok(h), hs + [h]) else (Err(DecimalOverflow), hs)
  {
    match GetObject(users, pk)
    case Err(e) => (Err(e), hs)
    case Ok(user) =>
      match FindHistory(hs, pk, today)
      case Some(h) => (Ok(h), hs)
      case None =>
        var goal := DailyGoal(user.weight);
        if FitsDigits(goal, GoalMax) then
          var h := History(nextId, pk, goal, today);
          FindHistoryAfterAppend(hs, h, pk, today);
          (Ok(h), hs + [h])
        else (Err(DecimalOverflow), hs)
  }

  /** A created History snapshots the goal of the user's weight at the time of the call. */
  lemma ResolveDaySnapshotsGoal(users: map<nat, User>, hs: seq<History>, nextId: nat, pk: nat, today: Date)
    requires ResolveDay(users, hs, nextId, pk, today).1 != hs
    ensures var out := ResolveDay(users, hs, nextId, pk, today);
            pk in users && out.0 == Ok(History(nextId, pk, DailyGoal(users[pk].weight), today))
            && out.1 == hs + [out.0.value]
  {
  }

  /** Resolving the same (user, day) again returns the same History and changes nothing. */
  lemma ResolveDayIdempotent(users: map<nat, User>, hs: seq<History>, nextId: nat, nextId': nat, pk: nat, today: Date)
    requires ResolveDay(users, hs, nextId, pk, today).0.Ok?
    ensures var out := ResolveDay(users, hs, nextId, pk, today);
            ResolveDay(users, out.1, nextId', pk, today) == out
  {
  }

  /** Resolving a day never gives a (user, date) key a second History. */
  lemma {:induction false} ResolveDayKeepsUnique(users: map<nat, User>, hs: seq<History>, nextId: nat, pk: nat, today: Date)
    requires UniquePerUserDate(hs)
    ensures UniquePerUserDate(ResolveDay(users, hs, nextId, pk, today).1)
  {
    var out := ResolveDay(users, hs, nextId, pk, today);
    if out.1 != hs {
      var hs' := out.1;
      forall i, j | 0 <= i < j < |hs'| ensures !HasKey(hs'[j], hs'[i].userId, hs'[i].date) {
        if j == |hs| {
          assert hs'[i] == hs[i] && !HasKey(hs[i], pk, today);
        } else {
          assert hs'[i] == hs[i] && hs'[j] == hs[j];
        }
      }
    }
  }

  /** The date a summary is asked for: the parameter if present and non-empty, else today. */
  function ResumeDate(param: Option<string>, today: Date): (r: Result<Date>)
    ensures param.None? || param.value == "" ==> r == Ok(today)
    ensures param.Some? && param.value != "" ==> r == ParseDate(param.value)
  {
    if param.None? || param.value == "" then Ok(today) else ParseDate(param.value)
  }

  /**
   * `resume`: the History of user `pk` for the requested date. It reads only;
   * the user itself is not looked up.
   */
  function Resume(hs: seq<History>, pk: nat, param: Option<string>, today: Date): (r: Result<History>)
    ensures r == Err(MalformedDate) <==> ResumeDate(param, today).Err?
    ensures r == Err(NotFound) <==> ResumeDate(param, today).Ok?
                                    && forall k | 0 <= k < |hs| :: !HasKey(hs[k], pk, ResumeDate(param, today).value)
    ensures r.Ok? ==> r.value in hs && HasKey(r.value, pk, ResumeDate(param, today).value)
    ensures r.Err? ==> r.error == MalformedDate || r.error == NotFound
    ensures ResumeDate(param, today).Ok? && FindHistory(hs, pk, ResumeDate(param, today).value).Some? ==>
              r == Ok(FindHistory(hs, pk, ResumeDate(param, today).value).value)
  {
    match ResumeDate(param, today)
    case Err(e) => Err(e)
    case Ok(date) =>
      match FindHistory(hs, pk, date)
      case None => Err(NotFound)
      case Some(h) => Ok(h)
  }

  /** `history`: every History of user `pk`, in store order. An unknown user has an empty history. */
  function HistoryOf(hs: seq<History>, pk: nat): (r: seq<History>)
    ensures forall h | h in r :: h in hs && h.userId == pk
    ensures forall k | 0 <= k < |hs| && hs[k].userId == pk :: hs[k] in r
    ensures |r| <= |hs|
    ensures forall h :: multiset(r)[h] == if h.userId == pk then multiset(hs)[h] else 0
    decreases |hs|
  {
    if hs == [] then []
    else
      var rest := HistoryOf(hs[1..], pk);
      assert forall k | 0 <= k < |hs[1..]| :: hs[1..][k] == hs[k + 1];
      assert hs == [hs[0]] + hs[1..];
      if hs[0].userId == pk then [hs[0]] + rest else rest
  }

  /** A user's single recorded day is the whole of that user's history. */
  lemma HistoryOfOneDay(u: nat, other: nat, today: Date)
    requires u != other
    ensures var hs := [History(1, other, 210000, today), History(2, u, 262500, today)];
            HistoryOf(hs, u) == [History(2, u, 262500, today)]
  {
    var hs := [History(1, other, 210000, today), History(2, u, 262500, today)];
    assert hs[1..][1..] == [];
  }

  predicate HasHistory(hs: seq<History>, id: nat) {
    exists k | 0 <= k < |hs| :: hs[k].id == id
  }

  /** Intake keys increase and stay below `nextId`; each Intake belongs to a stored History and fits its column. */
  ghost predicate IntakesValid(intakes: seq<Intake>, hs: seq<History>, nextId: nat) {
    && (forall i | 0 <= i < |intakes| ::
          intakes[i].id < nextId && HasHistory(hs, intakes[i].historyId) && FitsDigits(intakes[i].quantity, QuantityMax))
    && (forall i, j | 0 <= i < j < |intakes| :: intakes[i].id < intakes[j].id)
  }

  lemma IntakesValidAppend(intakes: seq<Intake>, hs: seq<History>, nextId: nat, i: Intake)
    requires IntakesValid(intakes, hs, nextId)
    requires i.id == nextId && HasHistory(hs, i.historyId) && FitsDigits(i.quantity, QuantityMax)
    ensures IntakesValid(intakes + [i], hs, nextId + 1)
  {
  }

  lemma IntakesValidMoreHistories(intakes: seq<Intake>, hs: seq<History>, nextId: nat, h: History)
    requires IntakesValid(intakes, hs, nextId)
    ensures IntakesValid(intakes, hs + [h], nextId)
  {
    forall i | 0 <= i < |intakes| ensures HasHistory(hs + [h], intakes[i].historyId) {
      var k :| 0 <= k < |hs| && hs[k].id == intakes[i].historyId;
      assert (hs + [h])[k] == hs[k];
    }
  }

  class Store {
    var users: map<nat, User>
    var histories: seq<History>
    var intakes: seq<Intake>
    var nextUserId: nat
    var nextHistoryId: nat
    var nextIntakeId: nat

    /** Keys, foreign keys and column bounds hold, and (user, date) is unique. */
    ghost predicate Valid()
      reads this
    {
      && (forall k | k in users :: users[k].id == k && k < nextUserId && FitsDigits(users[k].weight, WeightMax))
      && (forall i | 0 <= i < |histories| ::
            histories[i].id < nextHistoryId && histories[i].userId in users && FitsDigits(histories[i].goal, GoalMax))
      && (forall i, j | 0 <= i < j < |histories| :: histories[i].id < histories[j].id)
      && UniquePerUserDate(histories)
      && IntakesValid(intakes, histories, nextIntakeId)
    }

    constructor ()
      ensures Valid()
      ensures users == map[] && histories == [] && intakes == []
      ensures nextUserId == 1 && nextHistoryId == 1 && nextIntakeId == 1
    {
      users, histories, intakes := map[], [], [];
      nextUserId, nextHistoryId, nextIntakeId := 1, 1, 1;
    }

    /**
     * Creating a user: a name of 1 to 128 characters without a NUL character,
     * and a weight that fits its column.
     */
    method CreateUser(name: string, weight: DecimalParam) returns (r: Result<User>)
      requires Valid()
      modifies this
      ensures Valid()
      ensures histories == old(histories) && intakes == old(intakes)
      ensures nextHistoryId == old(nextHistoryId) && nextIntakeId == old(nextIntakeId)
      ensures !ValidName(name) || ValidateDecimal(weight, WeightMax).Err? ==>
                r == Err(ValidationError) && users == old(users) && nextUserId == old(nextUserId)
      ensures ValidName(name) && ValidateDecimal(weight, WeightMax).Ok? ==>
                && r == Ok(User(old(nextUserId), name, weight.value))
                && users == old(users)[old(nextUserId) := r.value] && nextUserId == old(nextUserId) + 1
    {
      var w := ValidateDecimal(weight, WeightMax);
      if !ValidName(name) || w.Err? {
        return Err(ValidationError);
      }
      var u := User(nextUserId, name, w.value);
      users := users[nextUserId := u];
      nextUserId := nextUserId + 1;
      r := Ok(u);
    }

    /**
     * Changing a user's weight, as a direct update of the record: no endpoint
     * of the viewset does it. The goals already stored in Histories stay as
     * they were.
     */
    method UpdateWeight(pk: nat, weight: DecimalParam) returns (r: Result<User>)
      requires Valid()
      modifies this
      ensures Valid()
      ensures histories == old(histories) && intakes == old(intakes)
      ensures nextUserId == old(nextUserId) && nextHistoryId == old(nextHistoryId) && nextIntakeId == old(nextIntakeId)
      ensures pk !in old(users) ==> r == Err(NotFound) && users == old(users)
      ensures pk in old(users) && ValidateDecimal(weight, WeightMax).Err? ==>
                r == Err(ValidationError) && users == old(users)
      ensures pk in old(users) && ValidateDecimal(weight, WeightMax).Ok? ==>
                && r == Ok(User(pk, old(users)[pk].name, weight.value))
                && users == old(users)[pk := r.value]
    {
      var found := GetObject(users, pk);
      if found.Err? {
        return Err(found.error);
      }
      var w := ValidateDecimal(weight, WeightMax);
      if w.Err? {
        return Err(w.error);
      }
      var u := User(pk, found.value.name, w.value);
      users := users[pk := u];
      r := Ok(u);
    }

    /** `get_or_create_point_in_history`: today's History of user `pk`, created if absent. */
    method GetOrCreatePointInHistory(pk: nat, today: Date) returns (r: Result<History>)
      requires Valid()
      modifies this
      ensures Valid()
      ensures (r, histories) == ResolveDay(old(users), old(histories), old(nextHistoryId), pk, today)
      ensures nextHistoryId == if histories == old(histories) then old(nextHistoryId) else old(nextHistoryId) + 1
      ensures users == old(users) && intakes == old(intakes)
      ensures nextUserId == old(nextUserId) && nextIntakeId == old(nextIntakeId)
    {
      var out := ResolveDay(users, histories, nextHistoryId, pk, today);
      ResolveDayKeepsUnique(users, histories, nextHistoryId, pk, today);
      if out.1 != histories {
        IntakesValidMoreHistories(intakes, histories, nextIntakeId, out.0.value);
        histories := out.1;
        nextHistoryId := nextHistoryId + 1;
      }
      r := out.0;
    }

    /**
     * `drink`: resolve today's History, then validate the quantity and record
     * it as a new Intake of that History. The History is created even when
     * the quantity is then refused.
     */
    method Drink(pk: nat, quantity: DecimalParam, today: Date) returns (r: Result<Intake>)
      requires Valid()
      modifies this
      ensures Valid()
      ensures users == old(users) && nextUserId == old(nextUserId)
      ensures var day := ResolveDay(old(users), old(histories), old(nextHistoryId), pk, today);
              && histories == day.1
              && (day.0.Err? ==> r == Err(day.0.error) && intakes == old(intakes))
              && (day.0.Ok? && ValidateDecimal(quantity, QuantityMax).Err? ==>
                    r == Err(ValidationError) && intakes == old(intakes))
              && (day.0.Ok? && ValidateDecimal(quantity, QuantityMax).Ok? ==>
                    && r == Ok(Intake(old(nextIntakeId), day.0.value.id, quantity.value))
                    && intakes == old(intakes) + [r.value])
      ensures nextHistoryId == if histories == old(histories) then old(nextHistoryId) else old(nextHistoryId) + 1
      ensures nextIntakeId == if r.Ok? then old(nextIntakeId) + 1 else old(nextIntakeId)
      ensures r.Ok? ==> forall h :: AmountTaken(h, intakes)
                          == AmountTaken(h, old(intakes)) + (if LinkedTo(r.value, h) then r.value.quantity else 0)
    {
      var day := GetOrCreatePointInHistory(pk, today);
      if day.Err? {
        return Err(day.error);
      }
      var q := ValidateDecimal(quantity, QuantityMax);
      if q.Err? {
        return Err(q.error);
      }
      assert FindHistory(histories, pk, today) == Some(day.value);
      assert HasHistory(histories, day.value.id);
      var intake := Intake(nextIntakeId, day.value.id, q.value);
      IntakesValidAppend(intakes, histories, nextIntakeId, intake);
      ghost var before := intakes;
      intakes := intakes + [intake];
      nextIntakeId := nextIntakeId + 1;
      AmountTakenAppendAll(before, intake);
      r := Ok(intake);
    }
  }
}
