/** What the Express middleware chains share: the request, the per-request `res.locals`,
    the `{status, message}` failure a check hands to `next`, the store snapshot the
    existence checks read, and the runner that stops at the first failure. */
module Middleware {
  import opened Js

  const BadRequest := 400
  const NotFound := 404
  const InternalError := 500

  /** The `message` of a failure: a string, a raw body value echoed as it is, or the
      JavaScript rendering of a number inside a template string. */
  datatype Message = Text(text: string) | Echo(value: Value) | NumberText(n: real)

  /** `message: v` */
  function EchoOf(v: Value): (m: Message)
    ensures v.Str? ==> m == Text(v.s)
    ensures !v.Str? ==> m == Echo(v)
  {
    if v.Str? then Text(v.s) else Echo(v)
  }

  /** `message: \`${v}\`` */
  function TemplateOf(v: Value): (m: Message)
    ensures v.Str? ==> m == Text(v.s)
    ensures m.Text? || m.NumberText?
  {
    match v
    case Str(s) => Text(s)
    case Num(n) => NumberText(n)
    case Bool(b) => Text(if b then "true" else "false")
    case Null => Text("null")
    case Undefined => Text("undefined")
  }

  /** What one middleware does: call `next()` with the new locals, call `next(error)`,
      or throw (a TypeError that Express hands to its error handler). */
  datatype Result<T> = Ok(value: T) | Err(status: int, message: Message) | Thrown(error: string)

  function Fail<T>(status: int, text: string): Result<T>
  {
    Err(status, Text(text))
  }

  /** A database row, as the services hand it back. */
  type Row = Fields

  /** `res.locals`: what earlier checks leave for later ones. */
  datatype Locals = Locals(hour: Value, mins: Value, reservationId: Value,
                           reservation: Option<Row>, table: Option<Row>)

  const NoLocals := Locals(Undefined, Undefined, Undefined, None, None)

  /** One request: `req.body.data` (`None` when it is falsy; a truthy non-object reads as
      an object without fields), the `:reservation_id` or `:table_id` route parameter,
      and the wall-clock time it is handled at, in local milliseconds since 1970. */
  datatype Request = Request(data: Option<Fields>, param: string, now: int)

  /** `req.body.data[key]` */
  function Field(req: Request, key: string): (v: Value)
    ensures req.data.None? ==> v == Undefined
  {
    match req.data
    case None => Undefined
    case Some(data) => Get(data, key)
  }

  predicate NonEmptyString(v: Value)
  {
    v.Str? && v.s != ""
  }

  /** The two relations, keyed by id. */
  datatype Db = Db(reservations: map<int, Row>, tables: map<int, Row>)

  /** The id a request value names in the store: an integral number, or a string of
      decimal digits; anything else names no row. */
  function KeyOf(v: Value): (k: Option<int>)
    ensures v.Num? ==> (k.Some? <==> IsIntegral(v.n))
    ensures k.Some? && v.Num? ==> k.value as real == v.n
    ensures v.Str? ==> (k.Some? <==> v.s != [] && AllDigits(v.s))
    ensures k.Some? && v.Str? ==> k.value == DecimalValue(v.s)
    ensures (v.Undefined? || v.Null? || v.Bool?) ==> k.None?
  {
    match v
    case Num(n) => if IsIntegral(n) then Some(n.Floor) else None
    case Str(s) => if s != [] && AllDigits(s) then Some(DecimalValue(s)) else None
    case _ => None
  }

  /** Runs the checks in order, threading the locals, and stops at the first one that
      does not call `next()`. */
  function Run<C>(cs: seq<C>, step: (C, Locals) -> Result<Locals>, l: Locals): Result<Locals>
    decreases |cs|
  {
    if cs == [] then Ok(l)
    else
      match step(cs[0], l)
      case Ok(l') => Run(cs[1..], step, l')
      case Err(status, message) => Err(status, message)
      case Thrown(e) => Thrown(e)
  }

  /** One step of the runner: a passing first check hands on its locals, a failing one is
      the answer. */
  lemma RunFirst<C>(cs: seq<C>, step: (C, Locals) -> Result<Locals>, l: Locals)
    requires cs != []
    ensures step(cs[0], l).Ok? ==> Run(cs, step, l) == Run(cs[1..], step, step(cs[0], l).value)
    ensures !step(cs[0], l).Ok? ==> Run(cs, step, l) == step(cs[0], l)
  {
  }

  /** Running `cs + ds` is running `cs` and then, if every check passed, `ds`. */
  lemma {:induction false} RunAppend<C>(cs: seq<C>, ds: seq<C>, step: (C, Locals) -> Result<Locals>, l: Locals)
    ensures Run(cs + ds, step, l) ==
      match Run(cs, step, l)
      case Ok(l') => Run(ds, step, l')
      case Err(status, message) => Err(status, message)
      case Thrown(e) => Thrown(e)
    decreases |cs|
  {
    if cs == [] {
      assert cs + ds == ds;
    } else {
      assert (cs + ds)[0] == cs[0];
      assert (cs + ds)[1..] == cs[1..] + ds;
      match step(cs[0], l)
      case Ok(l') => RunAppend(cs[1..], ds, step, l');
      case Err(_, _) =>
      case Thrown(_) =>
    }
  }

  /** A concatenation that passes passed its first part, and then its second from the
      locals the first left. */
  lemma RunAppendOk<C>(cs: seq<C>, ds: seq<C>, step: (C, Locals) -> Result<Locals>, l: Locals)
    requires Run(cs + ds, step, l).Ok?
    ensures Run(cs, step, l).Ok?
    ensures Run(ds, step, Run(cs, step, l).value) == Run(cs + ds, step, l)
  {
    RunAppend(cs, ds, step, l);
  }

  /** Only the first failing check is reported: when the checks before position `i`
      all pass, leaving `li`, and check `i` fails, the chain fails exactly as it does. */
  lemma FirstFailureWins<C>(cs: seq<C>, step: (C, Locals) -> Result<Locals>, l: Locals, i: nat, li: Locals)
    requires i < |cs|
    requires Run(cs[..i], step, l) == Ok(li)
    requires !step(cs[i], li).Ok?
    ensures Run(cs, step, l) == step(cs[i], li)
  {
    assert cs == cs[..i] + cs[i..];
    RunAppend(cs[..i], cs[i..], step, l);
    assert cs[i..][0] == cs[i];
  }

  /** A chain that passes has passed each of its checks in turn. */
  lemma {:induction false} PassedEveryCheck<C>(cs: seq<C>, step: (C, Locals) -> Result<Locals>, l: Locals, i: nat)
    requires i < |cs|
    requires Run(cs, step, l).Ok?
    ensures Run(cs[..i], step, l).Ok?
    ensures step(cs[i], Run(cs[..i], step, l).value).Ok?
  {
    assert cs == cs[..i] + cs[i..];
    RunAppend(cs[..i], cs[i..], step, l);
    assert cs[i..][0] == cs[i];
  }

  /** Two runners that agree on every check of a chain run it alike: a chain depends on
      nothing its checks do not read. */
  lemma {:induction false} RunSameSteps<C>(cs: seq<C>, step: (C, Locals) -> Result<Locals>,
                                          step': (C, Locals) -> Result<Locals>, l: Locals)
    requires forall c, m :: c in cs ==> step(c, m) == step'(c, m)
    ensures Run(cs, step, l) == Run(cs, step', l)
    decreases |cs|
  {
    if cs != [] {
      assert cs[0] in cs;
      match step(cs[0], l)
      case Ok(l') =>
        forall c, m | c in cs[1..] ensures step(c, m) == step'(c, m) {
          assert c in cs;
        }
        RunSameSteps(cs[1..], step, step', l');
      case Err(_, _) =>
      case Thrown(_) =>
    }
  }
}
