/** What the reservations controller's chains guarantee, stated over whole requests. */
module ReservationRules {
  import opened Js
  import opened Calendar
  import opened Middleware
  import opened Reservations

  // ---------------------------------------------------------------------------
  // Order of the checks
  // ---------------------------------------------------------------------------

  /** In the create chain only the first failing check is reported. */
  lemma CreateReportsFirstFailure(req: Request, db: Db, i: nat, li: Locals)
    requires i < |CreateChain|
    requires RunChecks(CreateChain[..i], req, db) == Ok(li)
    requires !Apply(CreateChain[i], req, db, li).Ok?
    ensures RunChecks(CreateChain, req, db) == Apply(CreateChain[i], req, db, li)
  {
    FirstFailureWins(CreateChain, Step(req, db), NoLocals, i, li);
  }

  /** A missing or empty first name is reported as `first_name`, whatever else is wrong
      (an empty last name included), on create and on update alike. */
  lemma FirstNameReportedFirst(req: Request, db: Db)
    requires req.data.Some? && !NonEmptyString(Field(req, "first_name"))
    ensures RunChecks(CreateChain, req, db) == Fail(BadRequest, "first_name")
    ensures RunChecks(UpdateChain, req, db) == Fail(BadRequest, "first_name")
  {
    assert CreateChain[..1] == [BodyData];
    assert RunChecks([BodyData], req, db) == Ok(NoLocals);
    CreateReportsFirstFailure(req, db, 1, NoLocals);
    RunAppend(CreateChain, [Exists], Step(req, db), NoLocals);
  }

  /** Once the field checks and the future check pass, a date whose UTC weekday is
      Tuesday is refused by the Tuesday rule. */
  lemma TuesdayIsRefused(req: Request, db: Db, li: Locals, t: int)
    requires RunChecks(CreateChain[..7], req, db) == Ok(li)
    requires NewDate(Field(req, "reservation_date")) == Some(t) && UtcWeekDay(t) == Tuesday
    ensures RunChecks(CreateChain, req, db) == Fail(BadRequest, "Restaurant is closed on Tuesdays")
  {
    CreateReportsFirstFailure(req, db, 7, li);
  }

  /** 2024-01-02 is refused as a Tuesday. */
  lemma JanuarySecond2024IsRefused(req: Request, db: Db, li: Locals)
    requires RunChecks(CreateChain[..7], req, db) == Ok(li)
    requires Field(req, "reservation_date") == Str("2024-01-02")
    ensures RunChecks(CreateChain, req, db) == Fail(BadRequest, "Restaurant is closed on Tuesdays")
  {
    JanuarySecond2024IsTuesday();
    TuesdayIsRefused(req, db, li, 19724 * MsPerDay);
  }

  /** Every check except the existence check fails only with 400. */
  lemma {:induction false} ValidationFailsWithBadRequest(cs: seq<Check>, req: Request, db: Db, l: Locals)
    requires Exists !in cs
    ensures RunFrom(cs, req, db, l).Err? ==> RunFrom(cs, req, db, l).status == BadRequest
    decreases |cs|
  {
    if cs != [] {
      assert cs[0] in cs;
      match Apply(cs[0], req, db, l)
      case Ok(l') =>
        assert forall c :: c in cs[1..] ==> c in cs;
        ValidationFailsWithBadRequest(cs[1..], req, db, l');
      case Err(_, _) =>
      case Thrown(_) =>
    }
  }

  /** The checks without the existence check never look at the store. */
  lemma {:induction false} ValidationIgnoresStore(cs: seq<Check>, req: Request, db: Db, db': Db, l: Locals)
    requires Exists !in cs
    ensures RunFrom(cs, req, db, l) == RunFrom(cs, req, db', l)
    decreases |cs|
  {
    if cs != [] {
      assert cs[0] in cs;
      assert Apply(cs[0], req, db, l) == Apply(cs[0], req, db', l);
      match Apply(cs[0], req, db, l)
      case Ok(l') =>
        assert forall c :: c in cs[1..] ==> c in cs;
        ValidationIgnoresStore(cs[1..], req, db, db', l');
      case Err(_, _) =>
      case Thrown(_) =>
    }
  }

  /** Update validates the body before it looks the reservation up: a body that fails a
      check gets that check's 400 whether or not the reservation exists. */
  lemma UpdateValidatesBeforeLookup(req: Request, db: Db, db': Db)
    requires !RunChecks(CreateChain, req, db).Ok?
    ensures RunChecks(UpdateChain, req, db) == RunChecks(CreateChain, req, db')
    ensures RunChecks(UpdateChain, req, db).Err? ==> RunChecks(UpdateChain, req, db).status == BadRequest
    ensures !Update(req, db).Ok? && Update(req, db) == Update(req, db')
    ensures Update(req, db).Err? ==> Update(req, db).status == BadRequest
  {
    RunAppend(CreateChain, [Exists], Step(req, db), NoLocals);
    RunAppend(CreateChain, [Exists], Step(req, db'), NoLocals);
    ValidationIgnoresStore(CreateChain, req, db, db', NoLocals);
    ValidationFailsWithBadRequest(CreateChain, req, db, NoLocals);
  }

  /** An update that gets through has a valid body and names an existing reservation. */
  lemma UpdateNamesExistingReservation(req: Request, db: Db)
    requires Update(req, db).Ok?
    ensures RunChecks(CreateChain, req, db).Ok?
    ensures KeyOf(Str(req.param)).Some? && KeyOf(Str(req.param)).value in db.reservations
  {
    var step := Step(req, db);
    forall l ensures step(Exists, l) == ReservationExists(req, db, l) {
    }
    assert Run(CreateChain + [Exists], step, NoLocals).Ok?;
    RunAppendOk(CreateChain, [Exists], step, NoLocals);
    var validated := Run(CreateChain, step, NoLocals).value;
    RunFirst([Exists], step, validated);
  }

  // ---------------------------------------------------------------------------
  // The status chain
  // ---------------------------------------------------------------------------

  /** A status change that gets through rewrites only the `status` of the stored row,
      to one of the four statuses, and only for a reservation that is not `finished`. */
  lemma StatusChangeOnlyStatus(req: Request, db: Db)
    requires StatusChange(req, db).Ok?
    ensures var k := KeyOf(Str(req.param));
      k.Some? && k.value in db.reservations &&
      Get(db.reservations[k.value], "status") != Str("finished") &&
      StatusChange(req, db).value == db.reservations[k.value]["status" := Field(req, "status")]
    ensures Get(StatusChange(req, db).value, "status") in Statuses
    ensures var k := KeyOf(Str(req.param));
      forall f :: f != "status" ==> Get(StatusChange(req, db).value, f) == Get(db.reservations[k.value], f)
  {
    StatusChainOutcome(req, db);
  }

  // ---------------------------------------------------------------------------
  // Time normalisation and open hours
  // ---------------------------------------------------------------------------

  /** `HH:MM...` with digits around the colon. */
  predicate ColonClock(s: string)
  {
    |s| >= 5 && s[2] == ':' && IsDigit(s[0]) && IsDigit(s[1]) && IsDigit(s[3]) && IsDigit(s[4])
  }

  /** `HHMM` */
  predicate CompactClock(s: string)
  {
    |s| == 4 && AllDigits(s)
  }

  /** `HH:MM`, `HH:MM:SS` (or anything after the minutes) and `HHMM` all normalise to the
      four digits `HHMM`. */
  lemma NormalisedClock(s: string)
    requires ColonClock(s) || CompactClock(s)
    ensures ColonClock(s) ==> NormaliseTime(s) == [s[0], s[1], s[3], s[4]]
    ensures CompactClock(s) ==> NormaliseTime(s) == s
  {
    if ColonClock(s) {
      assert RemoveFirst(s, ':') == [s[0]] + RemoveFirst(s[1..], ':');
      assert RemoveFirst(s[1..], ':') == [s[1]] + RemoveFirst(s[2..], ':');
      assert RemoveFirst(s, ':') == [s[0], s[1]] + s[3..];
    }
  }

  /** The normal form of a clock-shaped time is an integer literal whose first two and
      next two characters are the hour and minute digits. */
  lemma ClockDigits(s: string)
    requires ColonClock(s) || CompactClock(s)
    ensures var t := NormaliseTime(s);
      IsIntegerNumber(StringToNumber(t)) &&
      Substring(t, 0, 2) == [s[0], s[1]] &&
      Substring(t, 2, 4) == if ColonClock(s) then [s[3], s[4]] else [s[2], s[3]]
  {
    NormalisedClock(s);
    var t := NormaliseTime(s);
    assert |t| == 4 && AllDigits(t);
    DigitsToNumber(t);
    assert IsIntegral(DecimalValue(t) as real);
  }

  /** A clock-shaped time passes `timeIsValid`, leaving its two hour digits and two
      minute digits in the locals. */
  lemma ClockTimeIsValid(req: Request, l: Locals, s: string)
    requires req.data.Some? && Field(req, "reservation_time") == Str(s)
    requires ColonClock(s) || CompactClock(s)
    ensures var mins := if ColonClock(s) then [s[3], s[4]] else [s[2], s[3]];
      TimeIsValid(req, l) == Ok(l.(hour := Str([s[0], s[1]]), mins := Str(mins)))
  {
    ClockDigits(s);
  }

  /** "18:00", "18:00:00" and "1800" all give hour "18" and minutes "00". */
  lemma EighteenHundred(req: Request, l: Locals)
    requires req.data.Some?
    requires Field(req, "reservation_time") in {Str("18:00"), Str("18:00:00"), Str("1800")}
    ensures TimeIsValid(req, l) == Ok(l.(hour := Str("18"), mins := Str("00")))
  {
    var s := Field(req, "reservation_time").s;
    ClockTimeIsValid(req, l, s);
  }

  /** With two-digit hour and minutes, the open-hours check refuses exactly the times with
      hour >= 22, or with hour <= 10 and minutes <= 30. */
  lemma OpenHoursRule(l: Locals, h: string, m: string)
    requires |h| == 2 && AllDigits(h) && |m| == 2 && AllDigits(m)
    requires l.hour == Str(h) && l.mins == Str(m)
    ensures var hour, mins := DecimalValue(h), DecimalValue(m);
      IsDuringOpenHours(l).Ok? <==> !(hour >= 22 || (hour <= 10 && mins <= 30))
  {
    DigitsCompare(h, 22);
    DigitsCompare(h, 10);
    DigitsCompare(m, 30);
  }

  function AtClock(l: Locals, hour: string, mins: string): Locals
  {
    l.(hour := Str(hour), mins := Str(mins))
  }

  /** 21:45, 10:31 and (by the literal rule) 09:45 are open. */
  lemma OpenHoursExamples(l: Locals)
    ensures IsDuringOpenHours(AtClock(l, "21", "45")).Ok?
    ensures IsDuringOpenHours(AtClock(l, "10", "31")).Ok?
    ensures IsDuringOpenHours(AtClock(l, "09", "45")).Ok?
  {
    DecimalValue2('2', '1'); DecimalValue2('4', '5'); OpenHoursRule(AtClock(l, "21", "45"), "21", "45");
    DecimalValue2('1', '0'); DecimalValue2('3', '1'); OpenHoursRule(AtClock(l, "10", "31"), "10", "31");
    DecimalValue2('0', '9'); OpenHoursRule(AtClock(l, "09", "45"), "09", "45");
  }

  /** 22:00 and 10:00 are refused. */
  lemma ClosedHoursExamples(l: Locals)
    ensures IsDuringOpenHours(AtClock(l, "22", "00")) == Fail(BadRequest, "We are not open at that time")
    ensures IsDuringOpenHours(AtClock(l, "10", "00")) == Fail(BadRequest, "We are not open at that time")
  {
    DecimalValue2('2', '2'); DecimalValue2('0', '0'); OpenHoursRule(AtClock(l, "22", "00"), "22", "00");
    DecimalValue2('1', '0'); OpenHoursRule(AtClock(l, "10", "00"), "10", "00");
  }

  // ---------------------------------------------------------------------------
  // The future check and the two time forms
  // ---------------------------------------------------------------------------

  /** With an ISO date and a valid `HH:MM` time, the future check compares the local
      moment of that time on that day with the clock. */
  lemma ColonTimeIsChecked(req: Request, l: Locals, d: Date, ds: string, ts: string, ms: int)
    requires Field(req, "reservation_date") == Str(ds) && ParseIsoDate(ds) == Some(d)
    requires Field(req, "reservation_time") == Str(ts) && ParseClock(ts) == Some(ms)
    ensures ReservationInstant(req) == Some(DaysFromCivil(d) * MsPerDay + ms)
    ensures DateIsInTheFuture(req, l).Ok? <==> DaysFromCivil(d) * MsPerDay + ms >= req.now
  {
    var whole := ds + "T" + ts;
    assert whole[..10] == ds && whole[11..] == ts;
  }

  /** With a compact `HHMM` time the combined string is an Invalid Date, so the future
      check passes whatever the date and the clock. */
  lemma CompactTimeSkipsFutureCheck(req: Request, l: Locals, ds: string, ts: string)
    requires Field(req, "reservation_date") == Str(ds) && ParseIsoDate(ds).Some?
    requires Field(req, "reservation_time") == Str(ts) && CompactClock(ts)
    ensures ReservationInstant(req).None?
    ensures DateIsInTheFuture(req, l) == Ok(l)
  {
    var whole := ds + "T" + ts;
    assert whole[11..] == ts;
  }
}
