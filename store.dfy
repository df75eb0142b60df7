/** The two relations the controllers read and the three writes that follow their chains:
    `seat` and `finish` set a table's `reservation_id`, and the status route writes back the
    loaded reservation with its new status. */
module Backend {
  import opened Js
  import opened Middleware
  import Reservations
  import ReservationRules
  import opened Tables
  import opened TableRules

  /** Every row carries its own key in its id column. */
  predicate RowsCarryIds(db: Db)
  {
    (forall k :: k in db.tables ==> Get(db.tables[k], "table_id") == Num(k as real)) &&
    (forall k :: k in db.reservations ==> Get(db.reservations[k], "reservation_id") == Num(k as real))
  }

  /** A table that seats someone seats a reservation that exists and fits it. */
  predicate SeatsKnownParty(db: Db, table: Row)
  {
    Truthy(Get(table, "reservation_id")) ==>
      var k := KeyOf(Get(table, "reservation_id"));
      k.Some? && k.value in db.reservations &&
      AtLeast(Get(table, "capacity"), Get(db.reservations[k.value], "people"))
  }

  /** What the seat guards keep true of the store. */
  predicate Consistent(db: Db)
  {
    RowsCarryIds(db) && forall k :: k in db.tables ==> SeatsKnownParty(db, db.tables[k])
  }

  /** The store once `service.seat(table_id, reservation_id)` has run. */
  function Occupy(db: Db, tk: int, rid: Value): Db
    requires tk in db.tables
  {
    db.(tables := db.tables[tk := db.tables[tk]["reservation_id" := rid]])
  }

  /** The store once `service.finish(table)` has run: the table is free again. */
  function Vacate(db: Db, tk: int): Db
    requires tk in db.tables
  {
    db.(tables := db.tables[tk := db.tables[tk]["reservation_id" := Null]])
  }

  /** A table id in the store names the row that carries it. */
  lemma KeyOfOwnId(k: int)
    ensures KeyOf(Num(k as real)) == Some(k)
  {
    assert IsIntegral(k as real);
  }

  /** Seating keeps the store consistent: the table now names a reservation that exists,
      and the capacity check has just compared them. */
  lemma SeatKeepsConsistent(req: Request, db: Db)
    requires Consistent(db)
    requires RunChecks(SeatChain, req, db).Ok?
    ensures TableKey(req.param).Some? && TableKey(req.param).value in db.tables
    ensures Consistent(Occupy(db, TableKey(req.param).value, Field(req, "reservation_id")))
  {
    SeatReachedExactly(req, db);
    var tk := TableKey(req.param).value;
    var db' := Occupy(db, tk, Field(req, "reservation_id"));
    forall k | k in db'.tables ensures SeatsKnownParty(db', db'.tables[k]) {
      if k != tk {
        assert db'.tables[k] == db.tables[k];
      }
    }
  }

  /** Once seated, a table is finishable and refuses any further seating. */
  lemma SeatedTableIsOccupied(req: Request, db: Db, req': Request)
    requires Consistent(db)
    requires RunChecks(SeatChain, req, db).Ok?
    requires req'.param == req.param
    ensures TableKey(req.param).Some? && TableKey(req.param).value in db.tables
    ensures var db' := Occupy(db, TableKey(req.param).value, Field(req, "reservation_id"));
      RunChecks(FinishChain, req', db').Ok? && !RunChecks(SeatChain, req', db').Ok?
  {
    SeatReachedExactly(req, db);
    var db' := Occupy(db, TableKey(req.param).value, Field(req, "reservation_id"));
    FinishOutcome(req', db');
    SeatReachedExactly(req', db');
  }

  /** Finishing keeps the store consistent, frees the table, and a second finish of the
      same table is refused with `not occupied`. */
  lemma FinishFreesTable(req: Request, db: Db)
    requires Consistent(db)
    requires RunChecks(FinishChain, req, db).Ok?
    ensures TableKey(req.param).Some? && TableKey(req.param).value in db.tables
    ensures var db' := Vacate(db, TableKey(req.param).value);
      Consistent(db') &&
      IsAvailable(NoLocals.(table := Some(db'.tables[TableKey(req.param).value]))).Ok? &&
      RunChecks(FinishChain, req, db') == Fail(BadRequest, "not occupied")
  {
    FinishOutcome(req, db);
    var tk := TableKey(req.param).value;
    var db' := Vacate(db, tk);
    forall k | k in db'.tables ensures SeatsKnownParty(db', db'.tables[k]) {
      if k != tk {
        assert db'.tables[k] == db.tables[k];
      }
    }
    FinishOutcome(req, db');
  }

  /** Writing back a reservation whose status alone changed keeps the store consistent. */
  lemma StatusChangeKeepsConsistent(req: Request, db: Db)
    requires Consistent(db)
    requires Reservations.StatusChange(req, db).Ok?
    ensures var k := KeyOf(Str(req.param));
      k.Some? && k.value in db.reservations &&
      Consistent(db.(reservations := db.reservations[k.value := Reservations.StatusChange(req, db).value]))
  {
    ReservationRules.StatusChangeOnlyStatus(req, db);
    var k := KeyOf(Str(req.param)).value;
    var row := Reservations.StatusChange(req, db).value;
    var db' := db.(reservations := db.reservations[k := row]);
    assert Get(row, "reservation_id") == Get(db.reservations[k], "reservation_id");
    forall j | j in db'.tables ensures SeatsKnownParty(db', db'.tables[j]) {
      assert SeatsKnownParty(db, db.tables[j]);
      var t := db.tables[j];
      if Truthy(Get(t, "reservation_id")) && KeyOf(Get(t, "reservation_id")) == Some(k) {
        assert Get(row, "people") == Get(db.reservations[k], "people");
      }
    }
  }

  /** The tables and reservations the controllers read and write, keyed by id. */
  class Store {
    var reservations: map<int, Row>
    var tables: map<int, Row>

    function Snapshot(): Db
      reads this
    {
      Db(reservations, tables)
    }

    ghost predicate Valid()
      reads this
    {
      Consistent(Snapshot())
    }

    constructor(db: Db)
      requires Consistent(db)
      ensures Valid()
      ensures Snapshot() == db
    {
      reservations := db.reservations;
      tables := db.tables;
    }

    /** The `seat` route: run the chain, then write the body's `reservation_id` into the
        loaded table's row, found by that row's own `table_id`. */
    method Seat(req: Request) returns (r: Result<Locals>)
      requires Valid()
      modifies this
      ensures Valid()
      ensures r == RunChecks(SeatChain, req, old(Snapshot()))
      ensures r.Ok? ==> TableKey(req.param).Some? && TableKey(req.param).value in old(tables)
      ensures r.Ok? ==> Snapshot() == Occupy(old(Snapshot()), TableKey(req.param).value, Field(req, "reservation_id"))
      ensures !r.Ok? ==> Snapshot() == old(Snapshot())
    {
      r := RunChecks(SeatChain, req, Snapshot());
      if r.Ok? {
        SeatOutcome(req, Snapshot());
        SeatKeepsConsistent(req, Snapshot());
        var tk := TableKey(req.param).value;
        KeyOfOwnId(tk);
        var table := r.value.table.value;
        var id := KeyOf(Get(table, "table_id")).value;
        tables := tables[id := tables[id]["reservation_id" := r.value.reservationId]];
      }
    }

    /** The `finish` route: run the chain, then clear the loaded table's `reservation_id`. */
    method Finish(req: Request) returns (r: Result<Locals>)
      requires Valid()
      modifies this
      ensures Valid()
      ensures r == RunChecks(FinishChain, req, old(Snapshot()))
      ensures r.Ok? ==> TableKey(req.param).Some? && TableKey(req.param).value in old(tables)
      ensures r.Ok? ==> Snapshot() == Vacate(old(Snapshot()), TableKey(req.param).value)
      ensures !r.Ok? ==> Snapshot() == old(Snapshot())
    {
      r := RunChecks(FinishChain, req, Snapshot());
      if r.Ok? {
        FinishOutcome(req, Snapshot());
        FinishFreesTable(req, Snapshot());
        var tk := TableKey(req.param).value;
        KeyOfOwnId(tk);
        var table := r.value.table.value;
        var id := KeyOf(Get(table, "table_id")).value;
        tables := tables[id := tables[id]["reservation_id" := Null]];
      }
    }

    /** The status route: run the chain, then write back the loaded reservation, carrying
        the new status, under its own `reservation_id`. */
    method SetStatus(req: Request) returns (r: Result<Row>)
      requires Valid()
      modifies this
      ensures Valid()
      ensures r == Reservations.StatusChange(req, old(Snapshot()))
      ensures r.Ok? ==> KeyOf(Str(req.param)).Some? && KeyOf(Str(req.param)).value in old(reservations)
      ensures r.Ok? ==> Snapshot() == old(Snapshot()).(reservations := old(reservations)[KeyOf(Str(req.param)).value := r.value])
      ensures !r.Ok? ==> Snapshot() == old(Snapshot())
    {
      r := Reservations.StatusChange(req, Snapshot());
      if r.Ok? {
        ReservationRules.StatusChangeOnlyStatus(req, Snapshot());
        StatusChangeKeepsConsistent(req, Snapshot());
        var k := KeyOf(Str(req.param)).value;
        KeyOfOwnId(k);
        assert Get(r.value, "reservation_id") == Get(reservations[k], "reservation_id");
        var id := KeyOf(Get(r.value, "reservation_id")).value;
        reservations := reservations[id := r.value];
      }
    }
  }
}
