/**
 * The tracker's records and the quantities derived from them.
 *
 * Every decimal column has two decimal places, so every value is held
 * exactly as an integer count of hundredths: weight in hundredths of a
 * kilogram, goal and quantity in hundredths of a millilitre, the percentage
 * in hundredths of a percent. A column declared with `max_digits = k` and
 * two decimal places holds values of magnitude at most 10^k - 1 hundredths.
 * No column has a minimum: zero and negative values are accepted.
 */
module Models {
  import opened Outcomes
  import opened Dates

  /** `weight`: five digits, two of them decimals (at most 999.99 kg). */
  const WeightMax: nat := 99999
  /** `goal`: six digits, two of them decimals (at most 9999.99 mL). */
  const GoalMax: nat := 999999
  /** `quantity`: six digits, two of them decimals (at most 9999.99 mL). */
  const QuantityMax: nat := 999999

  predicate FitsDigits(v: int, max: nat) {
    -(max as int) <= v <= max
  }

  function Abs(x: int): nat {
    if x < 0 then -x else x
  }

  datatype User = User(id: nat, name: string, weight: int)

  /** One user's day: the goal is a stored snapshot, not recomputed. */
  datatype History = History(id: nat, userId: nat, goal: int, date: Date)

  datatype Intake = Intake(id: nat, historyId: nat, quantity: int)

  /** `User.daily_goal`: 35 mL per kilogram of body weight. */
  function DailyGoal(weight: int): int {
    weight * 35
  }

  /** A weight of 75 kg gives a goal of 2625.00 mL. */
  lemma DailyGoalOf75Kilograms()
    ensures DailyGoal(7500) == 262500
  {
  }

  /**
   * Every weight the `weight` column accepts has a goal, but only those up to
   * 285.71 kg in magnitude have a goal the `goal` column can store.
   */
  lemma GoalFitsColumn(weight: int)
    requires FitsDigits(weight, WeightMax)
    ensures FitsDigits(DailyGoal(weight), GoalMax) <==> -28571 <= weight <= 28571
  {
  }

  predicate LinkedTo(i: Intake, h: History) {
    i.historyId == h.id
  }

  /** `History.amount_taken`: the sum of the quantities of the intakes linked to `h`. */
  function AmountTaken(h: History, intakes: seq<Intake>): (taken: int)
    ensures (forall k | 0 <= k < |intakes| :: !LinkedTo(intakes[k], h)) ==> taken == 0
    ensures (forall k | 0 <= k < |intakes| && LinkedTo(intakes[k], h) :: intakes[k].quantity >= 0) ==> taken >= 0
    ensures (forall k | 0 <= k < |intakes| :: FitsDigits(intakes[k].quantity, QuantityMax))
              ==> FitsDigits(taken, |intakes| * QuantityMax)
    decreases |intakes|
  {
    if intakes == [] then 0
    else
      var rest := AmountTaken(h, intakes[1..]);
      assert forall k | 0 <= k < |intakes[1..]| :: intakes[1..][k] == intakes[k + 1];
      (if LinkedTo(intakes[0], h) then intakes[0].quantity else 0) + rest
  }

  /** Recording one more intake changes the total of its own day by its quantity and no other day's total. */
  lemma {:induction false} AmountTakenAppend(h: History, intakes: seq<Intake>, i: Intake)
    ensures AmountTaken(h, intakes + [i]) == AmountTaken(h, intakes) + (if LinkedTo(i, h) then i.quantity else 0)
    decreases |intakes|
  {
    if intakes == [] {
      assert [] + [i] == [i];
      assert [i][1..] == [];
    } else {
      assert (intakes + [i])[1..] == intakes[1..] + [i];
      AmountTakenAppend(h, intakes[1..], i);
    }
  }

  /** The same, for every History at once. */
  lemma AmountTakenAppendAll(intakes: seq<Intake>, i: Intake)
    ensures forall h :: AmountTaken(h, intakes + [i]) == AmountTaken(h, intakes) + (if LinkedTo(i, h) then i.quantity else 0)
  {
    forall h ensures AmountTaken(h, intakes + [i]) == AmountTaken(h, intakes) + (if LinkedTo(i, h) then i.quantity else 0) {
      AmountTakenAppend(h, intakes, i);
    }
  }

  /** `History.amount_left`: what is still to drink, clamped at zero. */
  function AmountLeft(h: History, intakes: seq<Intake>): (left: int)
    ensures left >= 0 && left >= h.goal - AmountTaken(h, intakes)
    ensures left == 0 || left == h.goal - AmountTaken(h, intakes)
    ensures AmountTaken(h, intakes) <= h.goal ==> left == h.goal - AmountTaken(h, intakes)
  {
    var left := h.goal - AmountTaken(h, intakes);
    if left < 0 then 0 else left
  }

  /** `History.reached_goal`: nothing is left to drink. */
  predicate ReachedGoal(h: History, intakes: seq<Intake>) {
    AmountLeft(h, intakes) == 0
  }

  lemma ReachedGoalIffGoalDrunk(h: History, intakes: seq<Intake>)
    ensures ReachedGoal(h, intakes) <==> AmountTaken(h, intakes) >= h.goal
  {
  }

  /**
   * `r` is `n / d` rounded to the nearest integer, ties going to the even
   * neighbour: the rounding of Python's `round(Decimal, 2)` once the scale of
   * two decimal places is taken out.
   */
  predicate RoundsTo(n: int, d: int, r: int) {
    d != 0 && 2 * Abs(n - r * d) <= Abs(d) && (2 * Abs(n - r * d) == Abs(d) ==> r % 2 == 0)
  }

  function RoundHalfEven(n: int, d: int): (r: int)
    requires d > 0
    ensures RoundsTo(n, d, r)
  {
    var q := n / d;
    var rem := n % d;
    assert n - q * d == rem;
    assert n - (q + 1) * d == rem - d by {
      assert (q + 1) * d == q * d + d;
    }
    if 2 * rem < d then q
    else if 2 * rem > d then q + 1
    else if q % 2 == 0 then q
    else q + 1
  }

  lemma MultipleBounds(k: int, d: int)
    requires d > 0
    ensures k >= 1 ==> k * d >= d
    ensures k >= 2 ==> k * d >= 2 * d
  {
    if k >= 2 {
      assert k * d == (k - 2) * d + 2 * d;
      assert (k - 2) * d >= 0;
    } else if k == 1 {
    }
  }

  /** Of two integers that both round `n / d` this way, for a positive `d`, neither exceeds the other. */
  lemma RoundsToUniquePositive(n: int, d: int, r: int, s: int)
    requires d > 0 && RoundsTo(n, d, r) && RoundsTo(n, d, s)
    ensures r <= s
  {
    if r > s {
      var k := r - s;
      assert k * d == (n - s * d) - (n - r * d) by {
        assert k * d == r * d - s * d;
      }
      MultipleBounds(k, d);
      assert false;
    }
  }

  /** The rounding is a function: the properties of RoundsTo determine its result. */
  lemma RoundHalfEvenUnique(n: int, d: int, r: int)
    requires d > 0 && RoundsTo(n, d, r)
    ensures r == RoundHalfEven(n, d)
  {
    var s := RoundHalfEven(n, d);
    RoundsToUniquePositive(n, d, r, s);
    RoundsToUniquePositive(n, d, s, r);
  }

  lemma RoundsToNegated(n: int, d: int, r: int)
    requires RoundsTo(-n, -d, r)
    ensures RoundsTo(n, d, r)
  {
    assert -n - r * -d == -(n - r * d);
  }

  /**
   * `History.percent_amount`: `amount_taken * 100 / goal` rounded half-even to
   * two places, in hundredths of a percent; dividing by a zero goal fails.
   */
  function PercentAmount(h: History, intakes: seq<Intake>): (p: Result<int>)
    ensures p.Err? <==> h.goal == 0
    ensures p.Err? ==> p.error == DivisionByZero
    ensures p.Ok? ==> RoundsTo(10000 * AmountTaken(h, intakes), h.goal, p.value)
  {
    var scaled := 10000 * AmountTaken(h, intakes);
    if h.goal == 0 then Err(DivisionByZero)
    else if h.goal > 0 then Ok(RoundHalfEven(scaled, h.goal))
    else
      var r := RoundHalfEven(-scaled, -h.goal);
      RoundsToNegated(scaled, h.goal, r);
      Ok(r)
  }

  /** For any non-zero divisor at most one integer is the rounded quotient. */
  lemma RoundsToUnique(n: int, d: int, r: int, s: int)
    requires RoundsTo(n, d, r) && RoundsTo(n, d, s)
    ensures r == s
  {
    if d < 0 {
      RoundsToNegated(-n, -d, r);
      RoundsToNegated(-n, -d, s);
      RoundsToUniquePositive(-n, -d, r, s);
      RoundsToUniquePositive(-n, -d, s, r);
    } else {
      RoundsToUniquePositive(n, d, r, s);
      RoundsToUniquePositive(n, d, s, r);
    }
  }

  /** Drinking exactly the goal gives 100.00 %. */
  lemma PercentAtGoal(h: History, intakes: seq<Intake>)
    requires h.goal != 0 && AmountTaken(h, intakes) == h.goal
    ensures PercentAmount(h, intakes) == Ok(10000)
  {
    assert RoundsTo(10000 * h.goal, h.goal, 10000);
    RoundsToUnique(10000 * h.goal, h.goal, 10000, PercentAmount(h, intakes).value);
  }

  /** A quotient of at least `m` does not round below `m`. */
  lemma RoundsToAtLeast(n: int, d: int, m: int, r: int)
    requires d > 0 && n >= m * d && RoundsTo(n, d, r)
    ensures r >= m
  {
    if r < m {
      assert (m - r) * d == m * d - r * d;
      MultipleBounds(m - r, d);
      assert false;
    }
  }

  /** Once the goal is reached the percentage is at least 100.00 %: it is not capped there. */
  lemma ReachedGoalMeansFullPercent(h: History, intakes: seq<Intake>)
    requires h.goal > 0 && ReachedGoal(h, intakes)
    ensures PercentAmount(h, intakes).Ok? && PercentAmount(h, intakes).value >= 10000
  {
    ReachedGoalIffGoalDrunk(h, intakes);
    RoundsToAtLeast(10000 * AmountTaken(h, intakes), h.goal, 10000, PercentAmount(h, intakes).value);
  }

  /** Drinking twice the goal reports 200.00 %. */
  lemma PercentNotCapped()
    ensures var h := History(1, 1, 262500, Date(2023, 7, 31));
            PercentAmount(h, [Intake(1, 1, 525000)]) == Ok(20000)
  {
    var h := History(1, 1, 262500, Date(2023, 7, 31));
    var s := [Intake(1, 1, 525000)];
    assert AmountTaken(h, s) == 525000 by { assert s[1..] == []; }
    RoundHalfEvenUnique(10000 * 525000, 262500, 20000);
  }

  /** Rounding can report 100.00 % while one hundredth of a millilitre is still left. */
  lemma FullPercentBeforeGoal()
    ensures var h := History(1, 1, 999999, Date(2023, 7, 31));
            var s := [Intake(1, 1, 999998)];
            PercentAmount(h, s) == Ok(10000) && !ReachedGoal(h, s) && AmountLeft(h, s) == 1
  {
    var h := History(1, 1, 999999, Date(2023, 7, 31));
    var s := [Intake(1, 1, 999998)];
    assert AmountTaken(h, s) == 999998 by { assert s[1..] == []; }
    RoundHalfEvenUnique(10000 * 999998, 999999, 10000);
  }

  /**
   * A 75 kg user's day: 500 mL leaves 2125.00 mL to drink; 2125 mL more
   * reaches the goal at 100.00 %.
   */
  lemma SummaryOfTwoDrinks()
    ensures var h := History(1, 1, DailyGoal(7500), Date(2023, 7, 31));
            var first := [Intake(1, 1, 50000)];
            var both := first + [Intake(2, 1, 212500)];
            && AmountTaken(h, first) == 50000 && AmountLeft(h, first) == 212500 && !ReachedGoal(h, first)
            && AmountTaken(h, both) == 262500 && AmountLeft(h, both) == 0 && ReachedGoal(h, both)
            && PercentAmount(h, both) == Ok(10000)
  {
    var h := History(1, 1, DailyGoal(7500), Date(2023, 7, 31));
    var first := [Intake(1, 1, 50000)];
    assert AmountTaken(h, first) == 50000 by { assert first[1..] == []; }
    AmountTakenAppend(h, first, Intake(2, 1, 212500));
    PercentAtGoal(h, first + [Intake(2, 1, 212500)]);
  }

  /** The History belongs to user `userId` and day `date`. */
  predicate HasKey(h: History, userId: nat, date: Date) {
    h.userId == userId && h.date == date
  }

  /** `unique_together = [['user_id', 'date']]`: no two Histories share a user and a date. */
  predicate UniquePerUserDate(hs: seq<History>) {
    forall i, j | 0 <= i < j < |hs| :: !HasKey(hs[j], hs[i].userId, hs[i].date)
  }

  function CountForKey(hs: seq<History>, userId: nat, date: Date): nat {
    if hs == [] then 0
    else (if HasKey(hs[0], userId, date) then 1 else 0) + CountForKey(hs[1..], userId, date)
  }

  lemma {:induction false} CountForKeyZero(hs: seq<History>, userId: nat, date: Date)
    requires forall k | 0 <= k < |hs| :: !HasKey(hs[k], userId, date)
    ensures CountForKey(hs, userId, date) == 0
  {
    if hs != [] {
      CountForKeyZero(hs[1..], userId, date);
    }
  }

  /** Under the constraint, each (user, date) key names at most one History. */
  lemma {:induction false} AtMostOneHistoryPerDay(hs: seq<History>, userId: nat, date: Date)
    requires UniquePerUserDate(hs)
    ensures CountForKey(hs, userId, date) <= 1
  {
    if hs != [] {
      var tail := hs[1..];
      assert UniquePerUserDate(tail) by {
        forall i, j | 0 <= i < j < |tail| ensures !HasKey(tail[j], tail[i].userId, tail[i].date) {
          assert tail[i] == hs[i + 1] && tail[j] == hs[j + 1];
        }
      }
      if HasKey(hs[0], userId, date) {
        forall k | 0 <= k < |tail| ensures !HasKey(tail[k], userId, date) {
          assert tail[k] == hs[k + 1];
        }
        CountForKeyZero(tail, userId, date);
      } else {
        AtMostOneHistoryPerDay(tail, userId, date);
      }
    }
  }
}
