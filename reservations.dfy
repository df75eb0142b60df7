/** The reservations controller: its field and business-rule checks, the `create`,
    `update` and `status` chains, and what the handlers at the end of them compute. */
module Reservations {
  import opened Js
  import opened Calendar
  import opened Middleware

  /** What destructuring `req.body.data` throws when there is no body. */
  const NoDataError := "Cannot destructure property of undefined"
  /** What `reservation_time.substring(...)` throws when the time is not a string. */
  const NotAStringError := "reservation_time.substring is not a function"
  /** What reading `.status` of a missing loaded reservation throws. */
  const NoReservationError := "Cannot read properties of undefined (reading 'status')"

  /** The four statuses a reservation can be given. */
  const Statuses: set<Value> := {Str("booked"), Str("seated"), Str("finished"), Str("cancelled")}

  // ---------------------------------------------------------------------------
  // Field checks
  // ---------------------------------------------------------------------------

  /** `hasBodyData` */
  function HasBodyData(req: Request, l: Locals): (r: Result<Locals>)
    ensures r.Ok? <==> req.data.Some?
    ensures r.Ok? ==> r.value == l
    ensures !r.Ok? ==> r == Err(BadRequest, Echo(Undefined))
  {
    if req.data.None? then Err(BadRequest, Echo(Undefined)) else Ok(l)
  }

  /** `nameIsValid`: both names must be non-empty strings; the first name is checked first. */
  function NameIsValid(req: Request, l: Locals): (r: Result<Locals>)
    ensures req.data.None? ==> r.Thrown?
    ensures req.data.Some? ==>
      (r.Ok? <==> NonEmptyString(Field(req, "first_name")) && NonEmptyString(Field(req, "last_name")))
    ensures r.Ok? ==> r.value == l
    ensures req.data.Some? && !NonEmptyString(Field(req, "first_name")) ==> r == Fail(BadRequest, "first_name")
    ensures req.data.Some? && NonEmptyString(Field(req, "first_name")) && !NonEmptyString(Field(req, "last_name"))
      ==> r == Fail(BadRequest, "last_name")
  {
    if req.data.None? then Thrown(NoDataError)
    else
      var first := Field(req, "first_name");
      var last := Field(req, "last_name");
      if !Truthy(first) || !Truthy(Length(first)) then Fail(BadRequest, "first_name")
      else if !Truthy(last) || !Truthy(Length(last)) then Fail(BadRequest, "last_name")
      else Ok(l)
  }

  /** `mobileNumberIsValid`: any truthy value is accepted. */
  function MobileNumberIsValid(req: Request, l: Locals): (r: Result<Locals>)
    ensures req.data.None? ==> r.Thrown?
    ensures req.data.Some? ==>
      var v := Field(req, "mobile_number");
      (r.Ok? <==> NonEmptyString(v) || (v.Num? && v.n != 0.0) || v == Bool(true))
    ensures r.Ok? ==> r.value == l
    ensures req.data.Some? && !r.Ok? ==> r == Fail(BadRequest, "mobile_number")
  {
    if req.data.None? then Thrown(NoDataError)
    else if !Truthy(Field(req, "mobile_number")) then Fail(BadRequest, "mobile_number")
    else Ok(l)
  }

  /** `dateIsValid`: present, and not an Invalid Date. */
  function DateIsValid(req: Request, l: Locals): (r: Result<Locals>)
    ensures req.data.None? ==> r.Thrown?
    ensures req.data.Some? ==>
      var v := Field(req, "reservation_date");
      (r.Ok? <==>
         ((v.Str? && ParseIsoDate(v.s).Some?) ||
          (v.Num? && v.n != 0.0 && -MaxTime <= v.n <= MaxTime) ||
          v == Bool(true)))
    ensures r.Ok? ==> r.value == l
    ensures req.data.Some? && !r.Ok? ==> r == Fail(BadRequest, "reservation_date")
  {
    if req.data.None? then Thrown(NoDataError)
    else
      var v := Field(req, "reservation_date");
      if !Truthy(v) || NewDate(v).None? then Fail(BadRequest, "reservation_date") else Ok(l)
  }

  /** `s.replace(c, "")`: drops the first occurrence of `c`. */
  function RemoveFirst(s: string, c: char): (t: string)
    ensures c !in s ==> t == s
    ensures c in s ==> |t| == |s| - 1
  {
    if s == [] then []
    else if s[0] == c then s[1..]
    else [s[0]] + RemoveFirst(s[1..], c)
  }

  /** `s.substring(from, to)` for `from <= to`: indices past the end are clamped. */
  function Substring(s: string, from: nat, to: nat): (t: string)
    requires from <= to
    ensures |t| <= to - from
  {
    var a := if from < |s| then from else |s|;
    var b := if to < |s| then to else |s|;
    s[a..b]
  }

  /** The rebinding in `timeIsValid`: with a colon at index 2, drop the first colon and keep
      four characters. */
  function NormaliseTime(s: string): string
  {
    if |s| > 2 && s[2] == ':' then Substring(RemoveFirst(s, ':'), 0, 4) else s
  }

  /** `timeIsValid`: the normalised time must convert to an integer; the first two and the
      next two characters of it are left in the locals as hour and minutes. */
  function TimeIsValid(req: Request, l: Locals): (r: Result<Locals>)
    ensures req.data.None? ==> r.Thrown?
    ensures req.data.Some? ==>
      var v := Field(req, "reservation_time");
      (r.Ok? <==> NonEmptyString(v) && IsIntegerNumber(StringToNumber(NormaliseTime(v.s))))
    ensures req.data.Some? && !Truthy(Field(req, "reservation_time")) ==> r == Fail(BadRequest, "reservation_time")
    ensures req.data.Some? && Field(req, "reservation_time").Str? && !r.Ok? ==> r == Fail(BadRequest, "reservation_time")
    ensures req.data.Some? && Truthy(Field(req, "reservation_time")) && !Field(req, "reservation_time").Str? ==>
      r == Thrown(NotAStringError)
    ensures r.Ok? ==>
      var t := NormaliseTime(Field(req, "reservation_time").s);
      r.value == l.(hour := Str(Substring(t, 0, 2)), mins := Str(Substring(t, 2, 4)))
  {
    if req.data.None? then Thrown(NoDataError)
    else
      var v := Field(req, "reservation_time");
      if !Truthy(v) then Fail(BadRequest, "reservation_time")
      else if !v.Str? then Thrown(NotAStringError)
      else
        var t := NormaliseTime(v.s);
        if IsIntegerNumber(StringToNumber(t)) then
          Ok(l.(hour := Str(Substring(t, 0, 2)), mins := Str(Substring(t, 2, 4))))
        else Fail(BadRequest, "reservation_time")
  }

  /** `peopleIsValid`: an integer greater than zero. */
  function PeopleIsValid(req: Request, l: Locals): (r: Result<Locals>)
    ensures req.data.None? ==> r.Thrown?
    ensures req.data.Some? ==>
      var v := Field(req, "people");
      (r.Ok? <==> v.Num? && IsIntegral(v.n) && v.n > 0.0)
    ensures r.Ok? ==> r.value == l
    ensures req.data.Some? && !r.Ok? ==> r == Fail(BadRequest, "people")
  {
    if req.data.None? then Thrown(NoDataError)
    else
      var v := Field(req, "people");
      if !Truthy(v) || !IsInteger(v) || AtMost(v, Num(0.0)) then Fail(BadRequest, "people") else Ok(l)
  }

  // ---------------------------------------------------------------------------
  // Business rules
  // ---------------------------------------------------------------------------

  /** `new Date(\`${reservation_date}T${reservation_time}\`)` as local milliseconds, or `None`
      for an Invalid Date. */
  function ReservationInstant(req: Request): (t: Option<int>)
    ensures t.Some? ==> Field(req, "reservation_date").Str? && Field(req, "reservation_time").Str?
  {
    var d := Field(req, "reservation_date");
    var time := Field(req, "reservation_time");
    if d.Str? && time.Str? then ParseLocalDateTime(d.s + "T" + time.s) else None
  }

  /** `dateIsInTheFuture`: rejects a reservation moment strictly before the clock; an
      Invalid Date compares as false and so passes. */
  function DateIsInTheFuture(req: Request, l: Locals): (r: Result<Locals>)
    ensures req.data.None? ==> r.Thrown?
    ensures req.data.Some? ==>
      (r.Ok? <==> ReservationInstant(req).None? || ReservationInstant(req).value >= req.now)
    ensures r.Ok? ==> r.value == l
    ensures req.data.Some? && !r.Ok? ==> r == Fail(BadRequest, "Reservation must be in the future")
  {
    if req.data.None? then Thrown(NoDataError)
    else
      var t := ReservationInstant(req);
      if t.Some? && t.value < req.now then Fail(BadRequest, "Reservation must be in the future") else Ok(l)
  }

  const Tuesday := 2

  /** `dateIsNotTuesday`: the UTC day of week of `new Date(reservation_date)` must not be 2. */
  function DateIsNotTuesday(req: Request, l: Locals): (r: Result<Locals>)
    ensures req.data.None? ==> r.Thrown?
    ensures req.data.Some? ==>
      var t := NewDate(Field(req, "reservation_date"));
      (r.Ok? <==> !(t.Some? && UtcWeekDay(t.value) == Tuesday))
    ensures r.Ok? ==> r.value == l
    ensures req.data.Some? && !r.Ok? ==> r == Fail(BadRequest, "Restaurant is closed on Tuesdays")
  {
    if req.data.None? then Thrown(NoDataError)
    else
      match NewDate(Field(req, "reservation_date"))
      case Some(t) =>
        if UtcWeekDay(t) == Tuesday then Fail(BadRequest, "Restaurant is closed on Tuesdays") else Ok(l)
      case None => Ok(l)
  }

  /** `isDuringOpenHours`: compares the hour and minute strings left by `timeIsValid` with
      numbers, as JavaScript does. */
  function IsDuringOpenHours(l: Locals): (r: Result<Locals>)
    ensures r.Ok? ==> r.value == l
    ensures !r.Ok? ==> r == Fail(BadRequest, "We are not open at that time")
  {
    if AtLeast(l.hour, Num(22.0)) || (AtMost(l.hour, Num(10.0)) && AtMost(l.mins, Num(30.0))) then
      Fail(BadRequest, "We are not open at that time")
    else Ok(l)
  }

  // ---------------------------------------------------------------------------
  // Existence and status checks
  // ---------------------------------------------------------------------------

  /** `reservationExists`: loads the row named by the route parameter into the locals. */
  function ReservationExists(req: Request, db: Db, l: Locals): (r: Result<Locals>)
    ensures var k := KeyOf(Str(req.param));
      r.Ok? <==> k.Some? && k.value in db.reservations
    ensures r.Ok? ==> r.value == l.(reservation := Some(db.reservations[KeyOf(Str(req.param)).value]))
    ensures !r.Ok? ==> r == Fail(NotFound, req.param)
  {
    match KeyOf(Str(req.param))
    case Some(k) =>
      if k in db.reservations then Ok(l.(reservation := Some(db.reservations[k])))
      else Fail(NotFound, req.param)
    case None => Fail(NotFound, req.param)
  }

  /** `newStatusIsValid`: one of the four statuses, else the value itself is echoed. */
  function NewStatusIsValid(req: Request, l: Locals): (r: Result<Locals>)
    ensures req.data.None? ==> r.Thrown?
    ensures req.data.Some? ==> (r.Ok? <==> Field(req, "status") in Statuses)
    ensures r.Ok? ==> r.value == l
    ensures req.data.Some? && !r.Ok? ==> r == Err(BadRequest, EchoOf(Field(req, "status")))
  {
    if req.data.None? then Thrown(NoDataError)
    else
      var status := Field(req, "status");
      if (Truthy(status) && status == Str("booked")) || status == Str("seated") ||
         status == Str("finished") || status == Str("cancelled")
      then Ok(l)
      else Err(BadRequest, EchoOf(status))
  }

  /** `isNotFinished`: the loaded reservation must not be `finished`. */
  function IsNotFinished(l: Locals): (r: Result<Locals>)
    ensures l.reservation.None? ==> r.Thrown?
    ensures l.reservation.Some? ==> (r.Ok? <==> Get(l.reservation.value, "status") != Str("finished"))
    ensures r.Ok? ==> r.value == l
    ensures l.reservation.Some? && !r.Ok? ==> r == Fail(BadRequest, "finished")
  {
    match l.reservation
    case None => Thrown(NoReservationError)
    case Some(row) => if Get(row, "status") == Str("finished") then Fail(BadRequest, "finished") else Ok(l)
  }

  // ---------------------------------------------------------------------------
  // Chains
  // ---------------------------------------------------------------------------

  datatype Check =
    | BodyData | Names | MobileNumber | ReservationDate | ReservationTime | People
    | InTheFuture | NotTuesday | OpenHours | Exists | NotFinished | NewStatus

  function Apply(c: Check, req: Request, db: Db, l: Locals): Result<Locals>
  {
    match c
    case BodyData => HasBodyData(req, l)
    case Names => NameIsValid(req, l)
    case MobileNumber => MobileNumberIsValid(req, l)
    case ReservationDate => DateIsValid(req, l)
    case ReservationTime => TimeIsValid(req, l)
    case People => PeopleIsValid(req, l)
    case InTheFuture => DateIsInTheFuture(req, l)
    case NotTuesday => DateIsNotTuesday(req, l)
    case OpenHours => IsDuringOpenHours(l)
    case Exists => ReservationExists(req, db, l)
    case NotFinished => IsNotFinished(l)
    case NewStatus => NewStatusIsValid(req, l)
  }

  function Step(req: Request, db: Db): (Check, Locals) -> Result<Locals>
  {
    (c, l) => Apply(c, req, db, l)
  }

  function RunFrom(cs: seq<Check>, req: Request, db: Db, l: Locals): Result<Locals>
  {
    Run(cs, Step(req, db), l)
  }

  function RunChecks(cs: seq<Check>, req: Request, db: Db): Result<Locals>
  {
    RunFrom(cs, req, db, NoLocals)
  }

  const CreateChain: seq<Check> :=
    [BodyData, Names, MobileNumber, ReservationDate, ReservationTime, People, InTheFuture, NotTuesday, OpenHours]

  const UpdateChain: seq<Check> := CreateChain + [Exists]

  const StatusChain: seq<Check> := [BodyData, Exists, NotFinished, NewStatus]

  /** The last two status checks, on the loaded reservation: not `finished`, then one of
      the four statuses. */
  lemma StatusLoadedPart(req: Request, db: Db, l: Locals)
    requires req.data.Some? && l.reservation.Some?
    ensures Run(StatusChain[2..], Step(req, db), l) ==
      if Get(l.reservation.value, "status") == Str("finished") then Fail(BadRequest, "finished")
      else if Field(req, "status") !in Statuses then Err(BadRequest, EchoOf(Field(req, "status")))
      else Ok(l)
  {
    var step := Step(req, db);
    var cs := StatusChain[2..];
    assert cs == [NotFinished, NewStatus];
    RunFirst(cs, step, l);
    assert step(NotFinished, l) == IsNotFinished(l);
    if IsNotFinished(l).Ok? {
      assert cs[1..] == [NewStatus];
      RunFirst(cs[1..], step, l);
      assert step(NewStatus, l) == NewStatusIsValid(req, l);
      assert cs[1..][1..] == [];
    }
  }

  /** The status route answers, in this order: no body 400, unknown reservation 404,
      already `finished` 400 `finished`, a status outside the four 400 echoing it. */
  lemma StatusChainOutcome(req: Request, db: Db)
    ensures var k := KeyOf(Str(req.param));
      RunChecks(StatusChain, req, db) ==
        if req.data.None? then Err(BadRequest, Echo(Undefined))
        else if k.None? || k.value !in db.reservations then Fail(NotFound, req.param)
        else if Get(db.reservations[k.value], "status") == Str("finished") then Fail(BadRequest, "finished")
        else if Field(req, "status") !in Statuses then Err(BadRequest, EchoOf(Field(req, "status")))
        else Ok(NoLocals.(reservation := Some(db.reservations[k.value])))
  {
    var step := Step(req, db);
    var cs := StatusChain;
    RunFirst(cs, step, NoLocals);
    assert step(BodyData, NoLocals) == HasBodyData(req, NoLocals);
    if req.data.Some? {
      assert cs[1..][1..] == StatusChain[2..];
      RunFirst(cs[1..], step, NoLocals);
      var found := ReservationExists(req, db, NoLocals);
      assert step(Exists, NoLocals) == found;
      if found.Ok? {
        StatusLoadedPart(req, db, found.value);
      }
    }
  }

  /** `hasBodyData` heads a chain: a chain that passes had a body. */
  lemma BodyCheckedFirst(cs: seq<Check>, req: Request, db: Db)
    requires cs != [] && cs[0] == BodyData
    ensures RunChecks(cs, req, db).Ok? ==> req.data.Some?
  {
    var step := Step(req, db);
    RunFirst(cs, step, NoLocals);
    assert step(BodyData, NoLocals) == HasBodyData(req, NoLocals);
  }

  // ---------------------------------------------------------------------------
  // Handlers
  // ---------------------------------------------------------------------------

  /** The body of `create` before it persists: a client status of `seated` or `finished`
      is refused and echoed; any other is overwritten with `booked`. */
  function BookedRecord(data: Fields): (r: Result<Fields>)
    ensures r.Ok? <==> Get(data, "status") != Str("seated") && Get(data, "status") != Str("finished")
    ensures !r.Ok? ==> r == Err(BadRequest, Text(Get(data, "status").s))
    ensures r.Ok? ==> Get(r.value, "status") == Str("booked")
    ensures r.Ok? ==> r.value.Keys == data.Keys + {"status"}
    ensures r.Ok? ==> forall k :: k != "status" ==> Get(r.value, k) == Get(data, k)
  {
    var status := Get(data, "status");
    if Truthy(status) && (status == Str("seated") || status == Str("finished")) then
      Err(BadRequest, Text(status.s))
    else Ok(data["status" := Str("booked")])
  }

  /** The `create` route: the chain, then the handler. `persisted` is whether the store
      handed back the created row; the record it was handed is the result. */
  function Create(req: Request, db: Db, persisted: bool): (r: Result<Fields>)
    ensures r.Ok? ==> RunChecks(CreateChain, req, db).Ok? && req.data.Some? && persisted
    ensures r.Ok? ==> Get(r.value, "status") == Str("booked")
    ensures r.Ok? ==> forall k :: k != "status" ==> Get(r.value, k) == Get(req.data.value, k)
    ensures var c := RunChecks(CreateChain, req, db); c.Err? ==> r == Err(c.status, c.message)
    ensures var c := RunChecks(CreateChain, req, db); c.Thrown? ==> r == Thrown(c.error)
    ensures RunChecks(CreateChain, req, db).Ok? ==> req.data.Some?
    ensures RunChecks(CreateChain, req, db).Ok? && req.data.Some? ==>
      var status := Get(req.data.value, "status");
      if status == Str("seated") || status == Str("finished") then r == Err(BadRequest, Text(status.s))
      else if !persisted then r == Fail(InternalError, "Failed to create reservation")
      else r.Ok?
  {
    BodyCheckedFirst(CreateChain, req, db);
    match RunChecks(CreateChain, req, db)
    case Err(status, message) => Err(status, message)
    case Thrown(e) => Thrown(e)
    case Ok(_) =>
      if req.data.None? then Thrown(NoDataError)
      else
        match BookedRecord(req.data.value)
        case Ok(record) => if persisted then Ok(record) else Fail(InternalError, "Failed to create reservation")
        case Err(status, message) => Err(status, message)
        case Thrown(e) => Thrown(e)
  }

  /** The `read` route: the reservation the route parameter names, or 404 echoing it. */
  function Read(req: Request, db: Db): (r: Result<Row>)
    ensures var k := KeyOf(Str(req.param));
      r.Ok? <==> k.Some? && k.value in db.reservations
    ensures r.Ok? ==> r.value == db.reservations[KeyOf(Str(req.param)).value]
    ensures !r.Ok? ==> r == Fail(NotFound, req.param)
  {
    match ReservationExists(req, db, NoLocals)
    case Ok(l) => if l.reservation.Some? then Ok(l.reservation.value) else Thrown(NoReservationError)
    case Err(status, message) => Err(status, message)
    case Thrown(e) => Thrown(e)
  }

  /** The `update` route: after the chain, the body is the record handed to the store. */
  function Update(req: Request, db: Db): (r: Result<Fields>)
    ensures r.Ok? <==> RunChecks(UpdateChain, req, db).Ok?
    ensures r.Ok? ==> req.data.Some? && r.value == req.data.value
    ensures var c := RunChecks(UpdateChain, req, db); c.Err? ==> r == Err(c.status, c.message)
    ensures var c := RunChecks(UpdateChain, req, db); c.Thrown? ==> r == Thrown(c.error)
  {
    assert UpdateChain[0] == BodyData;
    BodyCheckedFirst(UpdateChain, req, db);
    match RunChecks(UpdateChain, req, db)
    case Err(status, message) => Err(status, message)
    case Thrown(e) => Thrown(e)
    case Ok(_) => if req.data.None? then Thrown(NoDataError) else Ok(req.data.value)
  }

  /** The `status` route: after the chain, the loaded reservation with its `status`
      replaced by the requested one is the record handed to the store. */
  function StatusChange(req: Request, db: Db): (r: Result<Row>)
    ensures r.Ok? <==> RunChecks(StatusChain, req, db).Ok?
    ensures r.Ok? ==> Get(r.value, "status") == Field(req, "status")
    ensures var c := RunChecks(StatusChain, req, db); c.Err? ==> r == Err(c.status, c.message)
  {
    StatusChainOutcome(req, db);
    match RunChecks(StatusChain, req, db)
    case Err(status, message) => Err(status, message)
    case Thrown(e) => Thrown(e)
    case Ok(l) =>
      match l.reservation
      case None => Thrown(NoReservationError)
      case Some(row) => Ok(row["status" := Field(req, "status")])
  }
}
