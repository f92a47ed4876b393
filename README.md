# Water-intake tracker: a Dafny model of its daily bookkeeping

The tracker keeps three kinds of record:

- a **User**, with a body weight;
- a **History**, which is one user's day: a goal snapshot and a date, unique per (user, date);
- an **Intake**, which is one recorded drink belonging to a History.

A user's daily goal is 35 mL per kilogram of body weight. The first drink of a day creates that day's History and copies the current goal into it. From the day's intakes, the tracker derives:

- the amount taken;
- the amount left, clamped at zero;
- whether the goal was reached;
- the percentage of the goal drunk.

Read-only endpoints return one day's History, or a user's whole history.

The model has four modules:

- `Outcomes` (`outcomes.dfy`): `Option`, `Result` and the failures a request can end in.
- `Dates` (`dates.dfy`): calendar dates, and the `%Y-%m-%d` parsing that `datetime.strptime` applies to the `date` query parameter.
- `Models` (`models.dfy`): the records and their derived quantities, from `tracker/models.py`.
- `Views` (`views.py` in the source, `views.dfy` here): the endpoints.
  - The store is a class `Store`. It holds users as a map from primary key, and Histories and Intakes as sequences in primary-key order.
  - `GetOrCreatePointInHistory` and `Drink` change the store. Each is proved against the pure function `ResolveDay`.
  - `GetObject`, `Resume` and `HistoryOf` are read-only functions over the store's contents.

Decimal columns have two decimal places, so every decimal value is an exact integer in hundredths:

- weight in 1/100 kg;
- goal and quantity in 1/100 mL;
- percentage in 1/100 %.

A column with `max_digits = k` holds at most 10^k − 1 hundredths in magnitude. "Today" is an explicit parameter.

Behaviours of the code that the model keeps, some of them easy to miss:

- No column has a minimum, so a zero or negative weight or quantity is accepted.
- A zero goal is possible, and its percentage fails: a division by zero, or 0/0 when nothing was drunk.
- `history` for an unknown user returns an empty list. It does not report NotFound.
- `resume` treats an empty `date` parameter like an absent one and uses today.
- `strptime` accepts month and day without zero padding, as in `2023-7-31`, and accepts a day padded with a space.
- On save, Django 4.2 quantizes a decimal to the column's precision. A goal above 9999.99 mL therefore cannot be saved. The `weight` column accepts up to 999.99 kg, but a user heavier than 285.71 kg gets no History, so every drink of theirs fails (`GoalFitsColumn`, `ResolveDay`).

## Model

| member | source | states |
|---|---|---|
| `Models.DailyGoalOf75Kilograms` | tracker/models.py:22-29 | `DailyGoal`, the model of `User.daily_goal`, gives a 75.00 kg user exactly 2625.00 mL, with no rounding |
| `Models.GoalFitsColumn` | tracker/models.py:13-29 | `DailyGoal`: for every weight the 5-digit column accepts, the goal fits the 6-digit goal column iff the weight is at most 285.71 kg in magnitude |
| `Models.AmountTaken` | tracker/models.py:64-80 | the day's total is 0 when no intake is linked to it; it is non-negative when the linked quantities are; it is bounded by the count of intakes times the quantity column's bound |
| `Models.AmountTakenAppend` | tracker/models.py:64-80 | adding an intake raises its own day's total by its quantity and leaves every other day's total unchanged |
| `Models.AmountTakenAppendAll` | tracker/models.py:64-80 | the same fact for all Histories at once |
| `Models.AmountLeft` | tracker/models.py:82-94 | amount left is the least value that is at least 0 and at least goal − taken; it equals goal − taken whenever taken ≤ goal |
| `Models.ReachedGoalIffGoalDrunk` | tracker/models.py:96-103 | `ReachedGoal`, the model of `History.reached_goal`, holds iff the amount taken is at least the goal |
| `Models.RoundHalfEven` | tracker/models.py:111 | the result is within half a unit of n/d, and an exact tie goes to the even neighbour |
| `Models.RoundHalfEvenUnique` | tracker/models.py:111 | those two properties determine the rounded value |
| `Models.RoundsToUnique` | tracker/models.py:111 | for a divisor of either sign, at most one integer is the half-even rounding of n/d |
| `Models.PercentAmount` | tracker/models.py:105-111 | the result fails with DivisionByZero exactly when the goal is 0; otherwise it is taken × 10000 / goal rounded half-even, in hundredths of a percent |
| `Models.PercentAtGoal` | tracker/models.py:105-111 | drinking exactly a non-zero goal gives 100.00 % |
| `Models.RoundsToAtLeast` | tracker/models.py:111 | a quotient of at least m never rounds below m |
| `Models.ReachedGoalMeansFullPercent` | tracker/models.py:96-111 | once a positive goal is reached the percentage is at least 100.00 % |
| `Models.PercentNotCapped` | tracker/models.py:105-111 | drinking twice the goal reports 200.00 %, so the percentage is not capped at 100 |
| `Models.FullPercentBeforeGoal` | tracker/models.py:96-111 | rounding can report 100.00 % while 0.01 mL is still left and the goal is not reached |
| `Models.SummaryOfTwoDrinks` | tracker/tests.py:112-123 | for a 75 kg user: 500 mL leaves 2125.00 mL and the goal is not reached; another 2125 mL leaves 0.00, reaches the goal and gives 100.00 % |
| `Models.AtMostOneHistoryPerDay` | tracker/models.py:116-117 | under `UniquePerUserDate`, the model of the unique-together constraint, each (user, date) key has at most one History |
| `Dates.ParseDate` | tracker/views.py:69-70 | every date the parser accepts is a valid Gregorian date in years 1 to 9999; every failure is MalformedDate |
| `Dates.ParseDateSpells` | tracker/views.py:69-70 | a text is accepted, with date d, iff it is four year digits, `-`, a month token, `-` and a day token that consume the whole text and spell d, and d is a valid date |
| `Dates.ParseFormatRoundTrip` | tracker/views.py:69-70 | every valid date written in ISO form is parsed back to the same date |
| `Dates.ParseRejectsNonIsoText` | tracker/tests.py:126-131 | day-first text such as `31-07-2023`, and the text `invalid_date`, are refused |
| `Dates.ParseAcceptsUnpaddedFields` | tracker/views.py:70 | `2023-7-31` and `2023-07- 5` are accepted, as by strptime |
| `Dates.ParseChecksCalendar` | tracker/views.py:70 | 29 February is refused in 2023 and accepted in 2024 |
| `Views.ValidateDecimal` | tracker/models.py:133-140 | a field is accepted iff it is given and fits the column's digits; a missing, null or malformed value is a ValidationError |
| `Views.GetObject` | tracker/views.py:19-24 | NotFound exactly when no user has the primary key; otherwise that user |
| `Views.FindHistory` | tracker/views.py:33 | the result is empty iff no History has the (user, date) key; otherwise it is the first History with that key |
| `Views.FindHistoryAfterAppend` | tracker/views.py:33-40 | after a History is created for a key with none, the lookup finds the new History |
| `Views.ResolveDay` | tracker/views.py:26-42 | an unknown user gives NotFound and nothing changes; an existing History for (user, today) is returned unchanged; otherwise a History with the next key, the user, today and the user's current daily goal is created and appended when that goal fits its column, and DecimalOverflow is reported with nothing changed when it does not |
| `Views.ResolveDaySnapshotsGoal` | tracker/views.py:35-40 | a created History takes the next key, the user, today's date and the daily goal of the user's weight at call time |
| `Views.ResolveDayIdempotent` | tracker/views.py:26-42 | resolving the same (user, today) again returns the same History and leaves the Histories unchanged |
| `Views.ResolveDayKeepsUnique` | tracker/migrations/0002_history_intake_delete_waterintake.py:22-24 | resolving a day never gives a (user, date) key a second History |
| `Views.ResumeDate` | tracker/views.py:69-72 | an absent or empty parameter means today; anything else is parsed as `%Y-%m-%d` |
| `Views.Resume` | tracker/views.py:62-79 | a malformed date gives MalformedDate; NotFound exactly when no History of the user has that date; otherwise the first stored History with that user and date; no other error is possible |
| `Views.HistoryOf` | tracker/views.py:81-95 | the result holds exactly the stored Histories of the user, each as many times as in the store, and no History of another user |
| `Views.HistoryOfOneDay` | tracker/tests.py:133-141 | a user with one recorded day has a history of exactly that day, even when another user also has records |
| `Views.Store.CreateUser` | tracker/models.py:12-20 | a user with a name of 1 to 128 characters and no NUL character (`ValidName`) and a weight that fits its column is added under the next key; otherwise ValidationError and nothing changes |
| `Views.Store.UpdateWeight` | tracker/models.py:48-55 | stands for a direct update of the `weight` field, since no endpoint in this core changes a weight; changing a user's weight replaces only that user; no History or Intake changes, so stored goals keep their snapshot |
| `Views.Store.GetOrCreatePointInHistory` | tracker/views.py:26-42 | the result and the new Histories are exactly those of ResolveDay on the old state; users and intakes are unchanged; the invariant, including (user, date) uniqueness, is kept |
| `Views.Store.Drink` | tracker/views.py:44-60 | the day is resolved first, and NotFound or an overflow adds nothing. An invalid quantity gives ValidationError and adds no Intake, though the day's History stays created. Otherwise exactly one Intake is appended to today's History, which raises that day's total by the quantity and no other day's total |

## Left out

- Django ORM and REST framework plumbing is replaced by operations on sequences and a map. This covers `save()`, querysets, `aggregate(Sum)`, `get_object_or_404`, serializers and response status codes. The source's `drink` answers 200 while its test expects 201; that is a framework concern and is not modelled.
- Pagination in `history` is not modelled. It is an external paginator; `HistoryOf` is the unpaged, filtered sequence in store order.
- `HistoryOf` states which records are in the result but not that the result keeps store order.
- `Resume` returns the History record. The serializer's summary fields are computed from it by the `Models` functions. A zero goal makes the percentage fail, and in the source that failure surfaces only during serialization.
- The serializer writes `goal`, `amount_taken` and `amount_left` as decimals of at most 6 digits (tracker/serializers.py:26-28). A day whose amount taken reaches 10000.00 mL, for example after two drinks of 5000 mL, therefore cannot be serialized, and `resume` and `history` fail for it. The model does not bound the amount taken and does not model this output failure.
- `Models.AmountTaken`: the database computes the sum; with SQLite it goes through floating point. The model uses the exact decimal sum.
- `Models.PercentAmount`: Python's default decimal context keeps 28 significant digits in the division before rounding. The model rounds the exact quotient. The two agree whenever the percentage has fewer than 19 integer digits.
- Request decimals come in already classified. `DecimalParam` says whether the value is missing, null, malformed or a two-place value. Parsing decimal text is not modelled.
- `Dates.ParseDate` accepts ASCII digits only. Python's `\d` also matches other Unicode decimal digits.
- User names are taken as given text. A missing or null `name` field, which the source refuses with a validation error, is not expressible, and whitespace trimming by the name field is not modelled.
- A non-numeric primary key in the URL is not modelled; keys are natural numbers.
- Deleting users and Histories, and the cascades on delete, are not modelled. No endpoint in this core deletes anything.
- "Today" is a parameter, not the clock. Time zones are not modelled. The source looks days up with `timezone.now()` and stamps them with the server's local date; the model assumes both give the same day.
- The check-then-create race between concurrent `drink` requests is not modelled. Operations run one at a time.
- The viewset's inherited retrieve, update and destroy actions are not modelled. They call `get_object()` without an argument, while tracker/views.py:19 requires `pk`, so as written they would fail with a TypeError. `Views.Store.UpdateWeight` therefore stands for a direct update of the record, not for an endpoint.
- `BadParams` in tracker/errors.py is never raised. It is not part of this model.
