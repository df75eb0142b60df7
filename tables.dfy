/** The tables controller: the checks of the `create`, `seat` and `finish` chains and
    what the `create` handler hands to the store. */
module Tables {
  import opened Js
  import opened Middleware

  /** What destructuring `capacity` of a missing loaded table throws. */
  const NoTableError := "Cannot destructure property 'capacity' of undefined"
  /** What destructuring `people` of a missing loaded reservation throws. */
  const NoReservationError := "Cannot destructure property 'people' of undefined"
  /** What reading `.reservation_id` of a missing loaded table throws. */
  const NoTableIdError := "Cannot read properties of undefined (reading 'reservation_id')"
  /** What reading `.status` of a missing loaded reservation throws. */
  const NoStatusError := "Cannot read properties of undefined (reading 'status')"

  // ---------------------------------------------------------------------------
  // Body checks
  // ---------------------------------------------------------------------------

  /** `bodyHasData` */
  function BodyHasData(req: Request, l: Locals): (r: Result<Locals>)
    ensures r.Ok? <==> req.data.Some?
    ensures r.Ok? ==> r.value == l
    ensures !r.Ok? ==> r == Fail(BadRequest, "body")
  {
    if req.data.None? then Fail(BadRequest, "body") else Ok(l)
  }

  /** `bodyHasReservationId`: a truthy `reservation_id` is kept in the locals. */
  function BodyHasReservationId(req: Request, l: Locals): (r: Result<Locals>)
    ensures req.data.None? ==> r.Thrown?
    ensures req.data.Some? ==> (r.Ok? <==> Truthy(Field(req, "reservation_id")))
    ensures r.Ok? ==> r.value == l.(reservationId := Field(req, "reservation_id"))
    ensures req.data.Some? && !r.Ok? ==> r == Fail(BadRequest, "reservation_id")
  {
    if req.data.None? then Thrown("Cannot destructure property 'reservation_id' of undefined")
    else
      var id := Field(req, "reservation_id");
      if !Truthy(id) then Fail(BadRequest, "reservation_id") else Ok(l.(reservationId := id))
  }

  /** `hasCapacity`: any truthy capacity. */
  function HasCapacity(req: Request, l: Locals): (r: Result<Locals>)
    ensures req.data.None? ==> r.Thrown?
    ensures req.data.Some? ==>
      var v := Field(req, "capacity");
      (r.Ok? <==> NonEmptyString(v) || (v.Num? && v.n != 0.0) || v == Bool(true))
    ensures r.Ok? ==> r.value == l
    ensures req.data.Some? && !r.Ok? ==> r == Fail(BadRequest, "capacity")
  {
    if req.data.None? then Thrown("Cannot destructure property 'capacity' of undefined")
    else if !Truthy(Field(req, "capacity")) then Fail(BadRequest, "capacity")
    else Ok(l)
  }

  /** `isValidCapacity`: a non-zero integer number; a negative one is let through. */
  function IsValidCapacity(req: Request, l: Locals): (r: Result<Locals>)
    ensures req.data.None? ==> r.Thrown?
    ensures req.data.Some? ==>
      var v := Field(req, "capacity");
      (r.Ok? <==> v.Num? && IsIntegral(v.n) && v.n != 0.0)
    ensures r.Ok? ==> r.value == l
    ensures req.data.Some? && !r.Ok? ==> r == Fail(BadRequest, "capacity")
  {
    if req.data.None? then Thrown("Cannot destructure property 'capacity' of undefined")
    else
      var capacity := Field(req, "capacity");
      if capacity == Num(0.0) || !IsInteger(capacity) then Fail(BadRequest, "capacity")
      else Ok(l)
  }

  /** `isValidName`: a string of at least two characters. */
  function IsValidName(req: Request, l: Locals): (r: Result<Locals>)
    ensures req.data.None? ==> r.Thrown?
    ensures req.data.Some? ==>
      var v := Field(req, "table_name");
      (r.Ok? <==> v.Str? && |v.s| >= 2)
    ensures r.Ok? ==> r.value == l
    ensures req.data.Some? && !r.Ok? ==> r == Fail(BadRequest, "table_name")
  {
    if req.data.None? then Thrown("Cannot destructure property 'table_name' of undefined")
    else
      var name := Field(req, "table_name");
      if !Truthy(name) || !Truthy(Length(name)) || Length(name) == Num(1.0) then
        Fail(BadRequest, "table_name")
      else Ok(l)
  }

  // ---------------------------------------------------------------------------
  // Existence checks
  // ---------------------------------------------------------------------------

  /** The key `Number(table_id)` names: an integral finite number; NaN, an infinity or
      a fraction names no row. */
  function TableKey(param: string): (k: Option<int>)
    ensures k.Some? <==> StringToNumber(param).Finite? && IsIntegral(StringToNumber(param).r)
    ensures k.Some? ==> k.value as real == StringToNumber(param).r
  {
    match StringToNumber(param)
    case Finite(n) => if IsIntegral(n) then Some(n.Floor) else None
    case _ => None
  }

  /** `tableExists`: loads the table the route parameter names into the locals; a miss
      echoes the parameter with 404. */
  function TableExists(req: Request, db: Db, l: Locals): (r: Result<Locals>)
    ensures var k := TableKey(req.param);
      r.Ok? <==> k.Some? && k.value in db.tables
    ensures r.Ok? ==> r.value == l.(table := Some(db.tables[TableKey(req.param).value]))
    ensures !r.Ok? ==> r == Fail(NotFound, req.param)
  {
    match TableKey(req.param)
    case Some(k) =>
      if k in db.tables then Ok(l.(table := Some(db.tables[k]))) else Fail(NotFound, req.param)
    case None => Fail(NotFound, req.param)
  }

  /** `reservationIdExists`: loads the reservation the body named; a miss renders the id
      into the 404 message. */
  function ReservationIdExists(db: Db, l: Locals): (r: Result<Locals>)
    ensures var k := KeyOf(l.reservationId);
      r.Ok? <==> k.Some? && k.value in db.reservations
    ensures r.Ok? ==> r.value == l.(reservation := Some(db.reservations[KeyOf(l.reservationId).value]))
    ensures !r.Ok? ==> r == Err(NotFound, TemplateOf(l.reservationId))
  {
    match KeyOf(l.reservationId)
    case Some(k) =>
      if k in db.reservations then Ok(l.(reservation := Some(db.reservations[k])))
      else Err(NotFound, TemplateOf(l.reservationId))
    case None => Err(NotFound, TemplateOf(l.reservationId))
  }

  // ---------------------------------------------------------------------------
  // Checks on the loaded rows
  // ---------------------------------------------------------------------------

  /** `isTableBigEnough`: `capacity >= people`, with JavaScript's comparison. */
  function IsTableBigEnough(l: Locals): (r: Result<Locals>)
    ensures l.table.None? || l.reservation.None? ==> r.Thrown?
    ensures l.table.Some? && l.reservation.Some? ==>
      (r.Ok? <==> AtLeast(Get(l.table.value, "capacity"), Get(l.reservation.value, "people")))
    ensures r.Ok? ==> r.value == l
    ensures l.table.Some? && l.reservation.Some? && !r.Ok? ==> r == Fail(BadRequest, "capacity")
  {
    if l.table.None? then Thrown(NoTableError)
    else if l.reservation.None? then Thrown(NoReservationError)
    else if AtLeast(Get(l.table.value, "capacity"), Get(l.reservation.value, "people")) then Ok(l)
    else Fail(BadRequest, "capacity")
  }

  /** `isAvailable`: the loaded table seats nobody. */
  function IsAvailable(l: Locals): (r: Result<Locals>)
    ensures l.table.None? ==> r.Thrown?
    ensures l.table.Some? ==> (r.Ok? <==> !Truthy(Get(l.table.value, "reservation_id")))
    ensures r.Ok? ==> r.value == l
    ensures l.table.Some? && !r.Ok? ==> r == Fail(BadRequest, "occupied")
  {
    match l.table
    case None => Thrown(NoTableIdError)
    case Some(t) => if !Truthy(Get(t, "reservation_id")) then Ok(l) else Fail(BadRequest, "occupied")
  }

  /** `isOccupied`: the loaded table seats someone. */
  function IsOccupied(l: Locals): (r: Result<Locals>)
    ensures l.table.None? ==> r.Thrown?
    ensures l.table.Some? ==> (r.Ok? <==> Truthy(Get(l.table.value, "reservation_id")))
    ensures r.Ok? ==> r.value == l
    ensures l.table.Some? && !r.Ok? ==> r == Fail(BadRequest, "not occupied")
  {
    match l.table
    case None => Thrown(NoTableIdError)
    case Some(t) => if Truthy(Get(t, "reservation_id")) then Ok(l) else Fail(BadRequest, "not occupied")
  }

  /** `isReservationSeated`: the loaded reservation is not `seated` yet. */
  function IsReservationSeated(l: Locals): (r: Result<Locals>)
    ensures l.reservation.None? ==> r.Thrown?
    ensures l.reservation.Some? ==> (r.Ok? <==> Get(l.reservation.value, "status") != Str("seated"))
    ensures r.Ok? ==> r.value == l
    ensures l.reservation.Some? && !r.Ok? ==> r == Fail(BadRequest, "reservation is already seated")
  {
    match l.reservation
    case None => Thrown(NoStatusError)
    case Some(row) =>
      if Get(row, "status") == Str("seated") then Fail(BadRequest, "reservation is already seated")
      else Ok(l)
  }

  // ---------------------------------------------------------------------------
  // Chains
  // ---------------------------------------------------------------------------

  datatype Check =
    | BodyData | ReservationId | Capacity | Name | IntegerCapacity
    | TableFound | ReservationFound | BigEnough | Available | Occupied | NotSeated

  function Apply(c: Check, req: Request, db: Db, l: Locals): Result<Locals>
  {
    match c
    case BodyData => BodyHasData(req, l)
    case ReservationId => BodyHasReservationId(req, l)
    case Capacity => HasCapacity(req, l)
    case Name => IsValidName(req, l)
    case IntegerCapacity => IsValidCapacity(req, l)
    case TableFound => TableExists(req, db, l)
    case ReservationFound => ReservationIdExists(db, l)
    case BigEnough => IsTableBigEnough(l)
    case Available => IsAvailable(l)
    case Occupied => IsOccupied(l)
    case NotSeated => IsReservationSeated(l)
  }

  function Step(req: Request, db: Db): (Check, Locals) -> Result<Locals>
  {
    (c, l) => Apply(c, req, db, l)
  }

  function RunChecks(cs: seq<Check>, req: Request, db: Db): Result<Locals>
  {
    Run(cs, Step(req, db), NoLocals)
  }

  const CreateChain: seq<Check> := [BodyData, Capacity, Name, IntegerCapacity]

  /** The seat checks that concern the reservation named in the body ... */
  const SeatReservationChecks: seq<Check> := [BodyData, ReservationId, ReservationFound, NotSeated]
  /** ... and those that concern the table named in the route. */
  const SeatTableChecks: seq<Check> := [TableFound, BigEnough, Available]

  const SeatChain: seq<Check> := SeatReservationChecks + SeatTableChecks

  const FinishChain: seq<Check> := [TableFound, Occupied]

  /** `bodyHasData` heads a chain: a chain that passes had a body. */
  lemma BodyCheckedFirst(cs: seq<Check>, req: Request, db: Db)
    requires cs != [] && cs[0] == BodyData
    ensures RunChecks(cs, req, db).Ok? ==> req.data.Some?
  {
    var step := Step(req, db);
    RunFirst(cs, step, NoLocals);
    assert step(BodyData, NoLocals) == BodyHasData(req, NoLocals);
  }

  /** The `create` route: after the chain, the body is the record handed to the store. */
  function Create(req: Request, db: Db): (r: Result<Fields>)
    ensures r.Ok? <==> RunChecks(CreateChain, req, db).Ok?
    ensures r.Ok? ==> req.data.Some? && r.value == req.data.value
    ensures var c := RunChecks(CreateChain, req, db); c.Err? ==> r == Err(c.status, c.message)
    ensures var c := RunChecks(CreateChain, req, db); c.Thrown? ==> r == Thrown(c.error)
  {
    BodyCheckedFirst(CreateChain, req, db);
    match RunChecks(CreateChain, req, db)
    case Err(status, message) => Err(status, message)
    case Thrown(e) => Thrown(e)
    case Ok(_) => if req.data.None? then Thrown("Cannot read properties of undefined") else Ok(req.data.value)
  }
}
