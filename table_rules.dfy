/** What the tables chains promise as a whole: the order in which their failures are
    reported, the conditions under which their handlers are reached, and the occupancy
    guards of `seat` and `finish`. */
module TableRules {
  import opened Js
  import opened Middleware
  import opened Tables

  // ---------------------------------------------------------------------------
  // create
  // ---------------------------------------------------------------------------

  /** The create route answers, in this order: no body 400 `body`, a falsy capacity 400
      `capacity`, a name shorter than two characters 400 `table_name`, a capacity that is
      not a non-zero integer 400 `capacity`. */
  lemma CreateOutcome(req: Request, db: Db)
    ensures var name := Field(req, "table_name");
      var capacity := Field(req, "capacity");
      RunChecks(CreateChain, req, db) ==
        if req.data.None? then Fail(BadRequest, "body")
        else if !Truthy(capacity) then Fail(BadRequest, "capacity")
        else if !(name.Str? && |name.s| >= 2) then Fail(BadRequest, "table_name")
        else if !(capacity.Num? && IsIntegral(capacity.n) && capacity.n != 0.0) then Fail(BadRequest, "capacity")
        else Ok(NoLocals)
  {
    var step := Step(req, db);
    var cs := CreateChain;
    RunFirst(cs, step, NoLocals);
    assert step(BodyData, NoLocals) == BodyHasData(req, NoLocals);
    if req.data.Some? {
      assert cs[1..] == [Capacity, Name, IntegerCapacity];
      RunFirst(cs[1..], step, NoLocals);
      assert step(Capacity, NoLocals) == HasCapacity(req, NoLocals);
      if HasCapacity(req, NoLocals).Ok? {
        assert cs[1..][1..] == [Name, IntegerCapacity];
        RunFirst(cs[1..][1..], step, NoLocals);
        assert step(Name, NoLocals) == IsValidName(req, NoLocals);
        if IsValidName(req, NoLocals).Ok? {
          assert cs[1..][1..][1..] == [IntegerCapacity];
          RunFirst(cs[1..][1..][1..], step, NoLocals);
          assert step(IntegerCapacity, NoLocals) == IsValidCapacity(req, NoLocals);
          assert cs[1..][1..][1..][1..] == [];
        }
      }
    }
  }

  /** A table is created exactly from a body whose name has at least two characters and
      whose capacity is a non-zero integer number (a negative one included); the body is
      what is handed to the store, and a refused body never throws. */
  lemma CreateAccepts(req: Request, db: Db)
    ensures var name := Field(req, "table_name");
      var capacity := Field(req, "capacity");
      Create(req, db).Ok? <==>
        req.data.Some? && name.Str? && |name.s| >= 2 &&
        capacity.Num? && IsIntegral(capacity.n) && capacity.n != 0.0
    ensures Create(req, db).Ok? ==> Create(req, db).value == req.data.value
    ensures !Create(req, db).Ok? ==> Create(req, db).Err? && Create(req, db).status == BadRequest
  {
    CreateOutcome(req, db);
  }

  /** The capacity check lets a negative integer through. */
  lemma NegativeCapacityAccepted(req: Request, db: Db)
    requires req.data == Some(map["table_name" := Str("Bar #1"), "capacity" := Num(-2.0)])
    ensures Create(req, db).Ok?
  {
    CreateAccepts(req, db);
    assert Field(req, "table_name") == Str("Bar #1");
    assert IsIntegral(-2.0);
  }

  // ---------------------------------------------------------------------------
  // seat
  // ---------------------------------------------------------------------------

  /** The first half of the seat chain: body, `reservation_id`, the reservation lookup and
      its status. */
  lemma SeatReservationPart(req: Request, db: Db)
    ensures var rid := Field(req, "reservation_id");
      var rk := KeyOf(rid);
      Run(SeatReservationChecks, Step(req, db), NoLocals) ==
        if req.data.None? then Fail(BadRequest, "body")
        else if !Truthy(rid) then Fail(BadRequest, "reservation_id")
        else if rk.None? || rk.value !in db.reservations then Err(NotFound, TemplateOf(rid))
        else if Get(db.reservations[rk.value], "status") == Str("seated") then
          Fail(BadRequest, "reservation is already seated")
        else Ok(NoLocals.(reservationId := rid, reservation := Some(db.reservations[rk.value])))
  {
    var step := Step(req, db);
    var cs := SeatReservationChecks;
    RunFirst(cs, step, NoLocals);
    assert step(BodyData, NoLocals) == BodyHasData(req, NoLocals);
    if req.data.Some? {
      assert cs[1..] == [ReservationId, ReservationFound, NotSeated];
      RunFirst(cs[1..], step, NoLocals);
      var named := BodyHasReservationId(req, NoLocals);
      assert step(ReservationId, NoLocals) == named;
      if named.Ok? {
        assert cs[1..][1..] == [ReservationFound, NotSeated];
        RunFirst(cs[1..][1..], step, named.value);
        var found := ReservationIdExists(db, named.value);
        assert step(ReservationFound, named.value) == found;
        if found.Ok? {
          assert cs[1..][1..][1..] == [NotSeated];
          RunFirst(cs[1..][1..][1..], step, found.value);
          assert step(NotSeated, found.value) == IsReservationSeated(found.value);
          assert cs[1..][1..][1..][1..] == [];
        }
      }
    }
  }

  /** The two seat checks on the loaded rows: capacity against the party, then occupancy. */
  lemma SeatLoadedPart(req: Request, db: Db, l: Locals)
    requires l.table.Some? && l.reservation.Some?
    ensures Run(SeatTableChecks[1..], Step(req, db), l) ==
      if !AtLeast(Get(l.table.value, "capacity"), Get(l.reservation.value, "people")) then Fail(BadRequest, "capacity")
      else if Truthy(Get(l.table.value, "reservation_id")) then Fail(BadRequest, "occupied")
      else Ok(l)
  {
    var step := Step(req, db);
    var cs := SeatTableChecks[1..];
    assert cs == [BigEnough, Available];
    RunFirst(cs, step, l);
    assert step(BigEnough, l) == IsTableBigEnough(l);
    if IsTableBigEnough(l).Ok? {
      assert cs[1..] == [Available];
      RunFirst(cs[1..], step, l);
      assert step(Available, l) == IsAvailable(l);
      assert cs[1..][1..] == [];
    }
  }

  /** The second half of the seat chain, from whatever locals the first half left: the
      table lookup, its capacity against the loaded party, and its occupancy. */
  lemma SeatTablePart(req: Request, db: Db, l: Locals)
    requires l.reservation.Some?
    ensures var tk := TableKey(req.param);
      Run(SeatTableChecks, Step(req, db), l) ==
        if tk.None? || tk.value !in db.tables then Fail(NotFound, req.param)
        else if !AtLeast(Get(db.tables[tk.value], "capacity"), Get(l.reservation.value, "people")) then
          Fail(BadRequest, "capacity")
        else if Truthy(Get(db.tables[tk.value], "reservation_id")) then Fail(BadRequest, "occupied")
        else Ok(l.(table := Some(db.tables[tk.value])))
  {
    var step := Step(req, db);
    RunFirst(SeatTableChecks, step, l);
    var found := TableExists(req, db, l);
    assert step(TableFound, l) == found;
    if found.Ok? {
      SeatLoadedPart(req, db, found.value);
    }
  }

  /** The seat route answers, in this order: no body 400 `body`; a falsy `reservation_id`
      400; an unknown reservation 404 with the id rendered; a reservation already `seated`
      400; an unknown table 404 echoing the parameter; a table smaller than the party 400
      `capacity`; an occupied table 400 `occupied`. Otherwise the locals hold the id and
      both loaded rows. */
  lemma SeatOutcome(req: Request, db: Db)
    ensures var rid := Field(req, "reservation_id");
      var rk := KeyOf(rid);
      var tk := TableKey(req.param);
      RunChecks(SeatChain, req, db) ==
        if req.data.None? then Fail(BadRequest, "body")
        else if !Truthy(rid) then Fail(BadRequest, "reservation_id")
        else if rk.None? || rk.value !in db.reservations then Err(NotFound, TemplateOf(rid))
        else if Get(db.reservations[rk.value], "status") == Str("seated") then
          Fail(BadRequest, "reservation is already seated")
        else if tk.None? || tk.value !in db.tables then Fail(NotFound, req.param)
        else if !AtLeast(Get(db.tables[tk.value], "capacity"), Get(db.reservations[rk.value], "people")) then
          Fail(BadRequest, "capacity")
        else if Truthy(Get(db.tables[tk.value], "reservation_id")) then Fail(BadRequest, "occupied")
        else Ok(Locals(Undefined, Undefined, rid, Some(db.reservations[rk.value]), Some(db.tables[tk.value])))
  {
    var step := Step(req, db);
    RunAppend(SeatReservationChecks, SeatTableChecks, step, NoLocals);
    SeatReservationPart(req, db);
    var front := Run(SeatReservationChecks, step, NoLocals);
    if front.Ok? {
      SeatTablePart(req, db, front.value);
    }
  }

  /** The seat handler is reached exactly when the reservation exists and is not `seated`,
      the table exists and is free, and its capacity is at least the party size. */
  lemma SeatReachedExactly(req: Request, db: Db)
    ensures var rk := KeyOf(Field(req, "reservation_id"));
      var tk := TableKey(req.param);
      RunChecks(SeatChain, req, db).Ok? <==>
        req.data.Some? && Truthy(Field(req, "reservation_id")) &&
        rk.Some? && rk.value in db.reservations && tk.Some? && tk.value in db.tables &&
        !Truthy(Get(db.tables[tk.value], "reservation_id")) &&
        AtLeast(Get(db.tables[tk.value], "capacity"), Get(db.reservations[rk.value], "people")) &&
        Get(db.reservations[rk.value], "status") != Str("seated")
  {
    SeatOutcome(req, db);
  }

  /** Once the table is loaded, the rest of the seat chain and of the finish chain reads
      only the loaded rows: neither the request nor the store matters any more. */
  lemma LoadedChecksReadOnlyLocals(req: Request, db: Db, req': Request, db': Db, l: Locals)
    ensures Run(SeatTableChecks[1..], Step(req, db), l) == Run(SeatTableChecks[1..], Step(req', db'), l)
    ensures Run(FinishChain[1..], Step(req, db), l) == Run(FinishChain[1..], Step(req', db'), l)
    ensures Apply(NotSeated, req, db, l) == Apply(NotSeated, req', db', l)
  {
    var s, s' := Step(req, db), Step(req', db');
    var loaded := [NotSeated, BigEnough, Available, Occupied];
    forall c, m | c in loaded ensures s(c, m) == s'(c, m) {
    }
    assert SeatTableChecks[1..] == [BigEnough, Available];
    assert FinishChain[1..] == [Occupied];
    RunSameSteps(SeatTableChecks[1..], s, s', l);
    RunSameSteps(FinishChain[1..], s, s', l);
  }

  // ---------------------------------------------------------------------------
  // finish
  // ---------------------------------------------------------------------------

  /** The last finish check, on the loaded table: it must seat someone. */
  lemma FinishLoadedPart(req: Request, db: Db, l: Locals)
    requires l.table.Some?
    ensures Run(FinishChain[1..], Step(req, db), l) ==
      if Truthy(Get(l.table.value, "reservation_id")) then Ok(l) else Fail(BadRequest, "not occupied")
  {
    var step := Step(req, db);
    var cs := FinishChain[1..];
    assert cs == [Occupied];
    RunFirst(cs, step, l);
    assert step(Occupied, l) == IsOccupied(l);
    assert cs[1..] == [];
  }

  /** The finish route answers 404 echoing the parameter for an unknown table and 400
      `not occupied` for a free one; otherwise the locals hold the loaded table. */
  lemma FinishOutcome(req: Request, db: Db)
    ensures var tk := TableKey(req.param);
      RunChecks(FinishChain, req, db) ==
        if tk.None? || tk.value !in db.tables then Fail(NotFound, req.param)
        else if !Truthy(Get(db.tables[tk.value], "reservation_id")) then Fail(BadRequest, "not occupied")
        else Ok(NoLocals.(table := Some(db.tables[tk.value])))
  {
    var step := Step(req, db);
    RunFirst(FinishChain, step, NoLocals);
    var found := TableExists(req, db, NoLocals);
    assert step(TableFound, NoLocals) == found;
    if found.Ok? {
      FinishLoadedPart(req, db, found.value);
    }
  }

  /** For a known table, exactly one of `isAvailable` and `isOccupied` passes, so the
      finish handler is reached exactly when the seat chain would stop at `occupied`. */
  lemma AvailableOrFinishable(req: Request, db: Db)
    requires TableKey(req.param).Some? && TableKey(req.param).value in db.tables
    ensures var l := NoLocals.(table := Some(db.tables[TableKey(req.param).value]));
      IsAvailable(l).Ok? != IsOccupied(l).Ok? &&
      (RunChecks(FinishChain, req, db).Ok? <==> !IsAvailable(l).Ok?)
  {
    FinishOutcome(req, db);
  }
}
