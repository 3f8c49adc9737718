/** One mutation request inside the transaction middleware: attempts, retries, the commit and the
    post-commit hooks (gqltx/middleware.go, gqltx/idempotency.go, gqltx/post_commit.go).

    What the database, the resolvers and the hooks do in each attempt is given, and arbitrary; the
    events they cause are recorded in order. */
module Retry {

  datatype Hook = Hook(token: int)

  datatype Event =
    | Began(tx: nat)
    | Registered(tx: nat, hook: Hook)
    | RolledBack(tx: nat)
    | CommitOk(tx: nat)
    | CommitError(tx: nat, applied: bool)
    | Ran(tx: nat, hook: Hook)

  /** postCommitContainer: the hooks of one attempt. */
  class PostCommitContainer {
    var hooks: seq<Hook>
    var closed: bool

    constructor ()
      ensures hooks == [] && !closed
    {
      hooks, closed := [], false;
    }

    /** AddPostCommit; a closed container ignores further hooks. */
    method Add(hook: Hook)
      modifies this
      ensures closed == old(closed)
      ensures hooks == if old(closed) then old(hooks) else old(hooks) + [hook]
    {
      if !closed {
        hooks := hooks + [hook];
      }
    }

    /** The snapshot RunPostCommit takes under the lock; a second call finds the container closed. */
    method Close() returns (ok: bool, taken: seq<Hook>)
      modifies this
      ensures !old(closed) ==> closed && hooks == []
      ensures ok == !old(closed) && taken == if old(closed) then [] else old(hooks)
      ensures old(closed) ==> closed && hooks == old(hooks)
    {
      if closed {
        return false, [];
      }
      ok, taken := true, hooks;
      hooks := [];
      closed := true;
    }
  }

  // ---- What a request may leave behind ----

  /** The attempts of a request, in order; each lists the hooks its resolvers registered.  A commit
      that fails for the service may have been applied by the database all the same. */
  datatype Trail =
    | BeginFailed
    | Committed(hooks: seq<Hook>)
    | CommitFailed(hooks: seq<Hook>, applied: bool)
    | Stopped(hooks: seq<Hook>)
    | Retried(hooks: seq<Hook>, next: Trail)

  function Registrations(tx: nat, hooks: seq<Hook>): seq<Event> {
    seq(|hooks|, i requires 0 <= i < |hooks| => Registered(tx, hooks[i]))
  }

  function Runs(tx: nat, hooks: seq<Hook>): seq<Event> {
    seq(|hooks|, i requires 0 <= i < |hooks| => Ran(tx, hooks[i]))
  }

  /** The events of a trail whose first transaction is tx. */
  function Events(trail: Trail, tx: nat): seq<Event> {
    match trail
    case BeginFailed => []
    case Committed(hooks) => [Began(tx)] + Registrations(tx, hooks) + [CommitOk(tx)] + Runs(tx, hooks)
    case CommitFailed(hooks, applied) => [Began(tx)] + Registrations(tx, hooks) + [CommitError(tx, applied)]
    case Stopped(hooks) => [Began(tx)] + Registrations(tx, hooks) + [RolledBack(tx)]
    case Retried(hooks, next) => [Began(tx)] + Registrations(tx, hooks) + [RolledBack(tx)] + Events(next, tx + 1)
  }

  function Retries(trail: Trail): nat {
    if trail.Retried? then 1 + Retries(trail.next) else 0
  }

  function Last(trail: Trail): Trail {
    if trail.Retried? then Last(trail.next) else trail
  }

  /** Whether the database applied the last attempt's transaction. */
  predicate Applied(trail: Trail) {
    var last := Last(trail);
    last.Committed? || (last.CommitFailed? && last.applied)
  }

  // ---- What the surroundings do ----

  datatype InsertOutcome = Inserted | UniqueViolation | InsertRetryable | InsertFails

  /** What the resolvers answered. */
  datatype Response = NilResponse | Errors(retryable: bool) | Fine

  datatype PersistOutcome = Persisted | TooLarge | Unserializable | MarkRetryable | MarkFails

  /** A commit is applied and reported so; applied but reported as an error, the answer being lost
      on its way; or not applied. */
  datatype CommitOutcome = Reported | Unreported | NotApplied

  /** One transaction: whether it begins, what inserting the in-flight row gives, the hooks the
      resolvers register and their response, what caching the response gives, and the commit. */
  datatype Attempt = Attempt(
    begins: bool,
    insert: InsertOutcome,
    hooks: seq<Hook>,
    response: Response,
    persist: PersistOutcome,
    commit: CommitOutcome)

  /** The attempt of each transaction number. */
  type World = nat -> Attempt

  predicate Resolved(lease: bool, a: Attempt) { a.begins && (lease ==> a.insert.Inserted?) }

  predicate ReachesCommit(lease: bool, a: Attempt) {
    Resolved(lease, a) && a.response.Fine? && (lease ==> a.persist.Persisted?)
  }

  /** The database applies the attempt's transaction. */
  predicate Applies(lease: bool, a: Attempt) { ReachesCommit(lease, a) && !a.commit.NotApplied? }

  /** The service learns that it was applied. */
  predicate Reports(lease: bool, a: Attempt) { ReachesCommit(lease, a) && a.commit.Reported? }

  /** Rolled back with an error that may pass when tried again. */
  predicate Retryable(lease: bool, a: Attempt) {
    || (a.begins && lease && a.insert.InsertRetryable?)
    || (Resolved(lease, a) && a.response == Errors(true))
    || (Resolved(lease, a) && a.response.Fine? && lease && a.persist.MarkRetryable?)
  }

  function HooksOf(lease: bool, a: Attempt): seq<Hook> { if Resolved(lease, a) then a.hooks else [] }

  /** The trail of a request with this budget whose first transaction is tx. */
  function TrailOf(lease: bool, world: World, tx: nat, budget: nat): Trail
    decreases budget
  {
    var a := world(tx);
    if !a.begins then BeginFailed
    else if Reports(lease, a) then Committed(a.hooks)
    else if ReachesCommit(lease, a) then CommitFailed(a.hooks, Applies(lease, a))
    else if Retryable(lease, a) && budget > 0 then Retried(HooksOf(lease, a), TrailOf(lease, world, tx + 1, budget - 1))
    else Stopped(HooksOf(lease, a))
  }

  /** What the client gets; Raced is whatever ResolveRace makes of the winner's row. */
  datatype Reply =
    | Success | NilReply | ResolverErrors | Raced | BeginError | CommitFailure | ResponseTooLarge | InternalError

  /** The reply of the last attempt. */
  function ReplyTo(lease: bool, a: Attempt): Reply {
    if !a.begins then BeginError
    else if lease && a.insert.UniqueViolation? then Raced
    else if lease && !a.insert.Inserted? then InternalError
    else match a.response
      case NilResponse => NilReply
      case Errors(_) => ResolverErrors
      case Fine =>
        if lease && a.persist.TooLarge? then ResponseTooLarge
        else if lease && !a.persist.Persisted? then InternalError
        else if a.commit.Reported? then Success
        else CommitFailure
  }

  // ---- What an attempt comes to, outcome by outcome ----

  /** How one attempt ends: started over, if there is budget, and otherwise with a reply; applied says
      whether the database keeps what it wrote. */
  datatype End = End(again: bool, reply: Reply, applied: bool)

  /** In the order in which things happen. */
  function EndOf(lease: bool, a: Attempt): End {
    if !a.begins then End(false, BeginError, false)
    else match (if lease then a.insert else Inserted)
      case UniqueViolation => End(false, Raced, false)
      case InsertRetryable => End(true, InternalError, false)
      case InsertFails => End(false, InternalError, false)
      case Inserted =>
        match a.response
        case NilResponse => End(false, NilReply, false)
        case Errors(retryable) => End(retryable, ResolverErrors, false)
        case Fine =>
          match (if lease then a.persist else Persisted)
          case TooLarge => End(false, ResponseTooLarge, false)
          case Unserializable => End(false, InternalError, false)
          case MarkRetryable => End(true, InternalError, false)
          case MarkFails => End(false, InternalError, false)
          case Persisted =>
            match a.commit
            case Reported => End(false, Success, true)
            case Unreported => End(false, CommitFailure, true)
            case NotApplied => End(false, CommitFailure, false)
  }

  /** The request is answered by its first attempt that is not started over, or by the last one its
      budget allows; n is how many came before it. */
  ghost predicate AnsweredBy(lease: bool, world: World, tx: nat, budget: nat, n: nat, reply: Reply, applied: bool) {
    && n <= budget && (forall j :: tx <= j < tx + n ==> EndOf(lease, world(j)).again)
    && (n == budget || !EndOf(lease, world(tx + n)).again)
    && reply == EndOf(lease, world(tx + n)).reply && applied == EndOf(lease, world(tx + n)).applied
  }

  lemma {:induction false} EndIs(lease: bool, a: Attempt)
    ensures EndOf(lease, a).again <==> Retryable(lease, a)
    ensures EndOf(lease, a).reply == ReplyTo(lease, a)
    ensures EndOf(lease, a).applied <==> Applies(lease, a)
  {
  }

  /** So is every request that is handled, and what it commits is logged. */
  lemma {:induction false} AnsweredByLast(lease: bool, world: World, tx: nat, budget: nat)
    ensures var trail := TrailOf(lease, world, tx, budget);
      && AnsweredBy(lease, world, tx, budget, Retries(trail), ReplyTo(lease, world(tx + Retries(trail))),
          CommitsIn(Events(trail, tx)))
      && (Applied(trail) <==> CommitsIn(Events(trail, tx)))
  {
    hide EndOf, ReplyTo, Applies, Retryable, Events, CommitsIn;
    RetriesAre(lease, world, tx, budget);
    AppliedIsLogged(TrailOf(lease, world, tx, budget), tx);
    forall j | tx <= j <= tx + Retries(TrailOf(lease, world, tx, budget))
      ensures EndOf(lease, world(j)).again <==> Retryable(lease, world(j))
      ensures EndOf(lease, world(j)).reply == ReplyTo(lease, world(j))
      ensures EndOf(lease, world(j)).applied <==> Applies(lease, world(j))
    {
      EndIs(lease, world(j));
    }
  }

  // ---- The middleware ----

  class Middleware {
    const hasLease: bool
    const world: World
    const broken: set<Hook>
    var log: seq<Event>
    var nextTx: nat

    constructor (hasLease: bool, world: World, broken: set<Hook>)
      ensures this.hasLease == hasLease && this.world == world && this.broken == broken && log == [] && nextTx == 0
    {
      this.hasLease, this.world, this.broken := hasLease, world, broken;
      log, nextTx := [], 0;
    }

    /** Resolvers run and register hooks in the container of their context. */
    method Resolve(tx: nat, container: PostCommitContainer)
      requires !container.closed && container.hooks == []
      modifies this`log, container
      ensures !container.closed && container.hooks == world(tx).hooks
      ensures log == old(log) + Registrations(tx, world(tx).hooks)
    {
      var hooks := world(tx).hooks;
      assert log + Registrations(tx, hooks[..0]) == log;
      for i := 0 to |hooks|
        invariant !container.closed && container.hooks == hooks[..i]
        invariant log == old(log) + Registrations(tx, hooks[..i])
      {
        container.Add(hooks[i]);
        log := log + [Registered(tx, hooks[i])];
        assert hooks[..i + 1] == hooks[..i] + [hooks[i]];
        assert Registrations(tx, hooks[..i + 1]) == Registrations(tx, hooks[..i]) + [Registered(tx, hooks[i])];
      }
      assert hooks[..|hooks|] == hooks;
    }

    /** RunPostCommit: every hook runs even if one fails; whether one did is reported. */
    method RunPostCommit(tx: nat, container: PostCommitContainer) returns (ok: bool)
      modifies this`log, container
      ensures log == if old(container.closed) then old(log) else old(log) + Runs(tx, old(container.hooks))
      ensures ok <==> !old(container.closed) && forall h :: h in old(container.hooks) ==> h !in broken
      ensures container.closed
    {
      var open, hooks := container.Close();
      ok := open;
      if !open {
        return;
      }
      assert log + Runs(tx, hooks[..0]) == log;
      for i := 0 to |hooks|
        invariant container.closed && log == old(log) + Runs(tx, hooks[..i])
        invariant ok <==> forall h :: h in hooks[..i] ==> h !in broken
      {
        assert hooks[..i + 1] == hooks[..i] + [hooks[i]];
        log := log + [Ran(tx, hooks[i])];
        assert Runs(tx, hooks[..i + 1]) == Runs(tx, hooks[..i]) + [Ran(tx, hooks[i])];
        ok := ok && hooks[i] !in broken;
      }
      assert hooks[..|hooks|] == hooks;
    }

    /** What handling a request whose next transaction is tx comes to. */
    ghost predicate Handled(tx: nat, maxRetries: nat, base: seq<Event>, now: seq<Event>, reply: Reply) {
      var trail := TrailOf(hasLease, world, tx, maxRetries);
      now == base + Events(trail, tx) && reply == ReplyTo(hasLease, world(tx + Retries(trail)))
    }

    /** handleMutationWithTx.  The budget shrinks with every retry, because each frame counts its
        own attempts from zero. */
    method HandleMutation(maxRetries: nat) returns (reply: Reply)
      modifies this`log, this`nextTx
      ensures Handled(old(nextTx), maxRetries, old(log), log, reply)
      decreases maxRetries, 3
    {
      var attempt := world(nextTx);
      if !attempt.begins {
        assert log + Events(BeginFailed, nextTx) == log;
        return BeginError;
      }
      ghost var base := log;
      var tx := nextTx;
      nextTx := nextTx + 1;
      log := log + [Began(tx)];
      var container := new PostCommitContainer();
      if hasLease && attempt.insert != Inserted {
        reply := InsertFailed(maxRetries, tx, base);
        return;
      }
      Resolve(tx, container);
      reply := Finish(maxRetries, tx, container, base);
    }

    /** The failure paths of insertInFlight: the race is resolved from the winner's row, a retryable
        error starts over while there is budget, anything else is final. */
    method InsertFailed(maxRetries: nat, tx: nat, ghost base: seq<Event>) returns (reply: Reply)
      requires tx + 1 == nextTx && log == base + [Began(tx)]
      requires world(tx).begins && hasLease && world(tx).insert != Inserted
      modifies this`log, this`nextTx
      ensures Handled(tx, maxRetries, base, log, reply)
      decreases maxRetries, 0
    {
      log := log + [RolledBack(tx)];
      assert Registrations(tx, []) == [];
      assert log == base + Events(Stopped([]), tx);
      var insert := world(tx).insert;
      if insert == UniqueViolation {
        return Raced;
      }
      if insert == InsertRetryable && maxRetries > 0 {
        reply := HandleMutation(maxRetries - 1);
        return;
      }
      return InternalError;
    }

    /** wrapResponseHandler: a nil response is final, errors may be retried, the rest commits. */
    method Finish(maxRetries: nat, tx: nat, container: PostCommitContainer, ghost base: seq<Event>)
      returns (reply: Reply)
      requires tx + 1 == nextTx && log == base + [Began(tx)] + Registrations(tx, world(tx).hooks)
      requires !container.closed && container.hooks == world(tx).hooks && Resolved(hasLease, world(tx))
      modifies this`log, this`nextTx, container
      ensures Handled(tx, maxRetries, base, log, reply)
      decreases maxRetries, 2
    {
      match world(tx).response {
        case NilResponse =>
          log := log + [RolledBack(tx)];
          return NilReply;
        case Errors(retryable) =>
          reply := HandleFailure(maxRetries, tx, retryable, base);
        case Fine =>
          reply := HandleSuccess(maxRetries, tx, container, base);
      }
    }

    /** handleFailure. */
    method HandleFailure(maxRetries: nat, tx: nat, retryable: bool, ghost base: seq<Event>) returns (reply: Reply)
      requires tx + 1 == nextTx && log == base + [Began(tx)] + Registrations(tx, world(tx).hooks)
      requires Resolved(hasLease, world(tx)) && world(tx).response == Errors(retryable)
      modifies this`log, this`nextTx
      ensures Handled(tx, maxRetries, base, log, reply)
      decreases maxRetries, 0
    {
      log := log + [RolledBack(tx)];
      var attempts := 0;
      if retryable {
        attempts := attempts + 1;
        if attempts > maxRetries {
          return ResolverErrors;
        }
        reply := HandleMutation(maxRetries - 1);
        return;
      }
      return ResolverErrors;
    }

    /** handleSuccess: the response is cached in the same transaction, then the commit, then the
        hooks; a commit error is answered as such and never retried, as the commit may have been
        applied. */
    method HandleSuccess(maxRetries: nat, tx: nat, container: PostCommitContainer, ghost base: seq<Event>)
      returns (reply: Reply)
      requires tx + 1 == nextTx && log == base + [Began(tx)] + Registrations(tx, world(tx).hooks)
      requires !container.closed && container.hooks == world(tx).hooks
      requires Resolved(hasLease, world(tx)) && world(tx).response.Fine?
      modifies this`log, this`nextTx, container
      ensures Handled(tx, maxRetries, base, log, reply)
      decreases maxRetries, 1
    {
      if hasLease && world(tx).persist != Persisted {
        reply := PersistFailed(maxRetries, tx, base);
        return;
      }
      var commit := world(tx).commit;
      if commit != Reported {
        log := log + [CommitError(tx, commit == Unreported)];
        return CommitFailure;
      }
      log := log + [CommitOk(tx)];
      var ok := RunPostCommit(tx, container);
      return Success;
    }

    /** The failure paths of persistIdempotencyResponse. */
    method PersistFailed(maxRetries: nat, tx: nat, ghost base: seq<Event>) returns (reply: Reply)
      requires tx + 1 == nextTx && log == base + [Began(tx)] + Registrations(tx, world(tx).hooks)
      requires hasLease && Resolved(hasLease, world(tx)) && world(tx).response.Fine? && world(tx).persist != Persisted
      modifies this`log, this`nextTx
      ensures Handled(tx, maxRetries, base, log, reply)
      decreases maxRetries, 0
    {
      log := log + [RolledBack(tx)];
      match world(tx).persist {
        case TooLarge => return ResponseTooLarge;
        case MarkRetryable =>
          if maxRetries > 0 {
            reply := HandleMutation(maxRetries - 1);
            return;
          }
          return InternalError;
        case _ => return InternalError;
      }
    }

    /** handleMutationWithoutTx: no transaction, and the hooks run whatever the response says. */
    method HandleWithoutTx() returns (r: Response)
      modifies this`log
      ensures r == world(nextTx).response
      ensures log == old(log) + Registrations(nextTx, world(nextTx).hooks)
                     + if r.NilResponse? then [] else Runs(nextTx, world(nextTx).hooks)
    {
      var container := new PostCommitContainer();
      Resolve(nextTx, container);
      r := world(nextTx).response;
      if r.NilResponse? {
        assert log + [] == log;
        return;
      }
      var ok := RunPostCommit(nextTx, container);
    }
  }

  /** Attempts follow one another while they fail retryably and the budget lasts, no longer. */
  lemma {:induction false} RetriesAre(lease: bool, world: World, tx: nat, budget: nat)
    ensures var trail := TrailOf(lease, world, tx, budget); var n := Retries(trail);
      && n <= budget && (forall j :: tx <= j < tx + n ==> Retryable(lease, world(j)))
      && (n == budget || !Retryable(lease, world(tx + n)))
      && (Applied(trail) <==> Applies(lease, world(tx + n)))
      && (Last(trail).Committed? <==> Reports(lease, world(tx + n)))
    decreases budget
  {
    var a := world(tx);
    if a.begins && !ReachesCommit(lease, a) && Retryable(lease, a) && budget > 0 {
      RetriesAre(lease, world, tx + 1, budget - 1);
    }
  }

  ghost predicate CommitsIn(log: seq<Event>) { exists e :: e in log && (e.CommitOk? || (e.CommitError? && e.applied)) }

  lemma {:induction false} AppliedIsLogged(trail: Trail, tx: nat)
    ensures Applied(trail) <==> CommitsIn(Events(trail, tx))
  {
    match trail
    case BeginFailed =>
    case Committed(hooks) => assert CommitOk(tx) in Events(trail, tx);
    case CommitFailed(hooks, applied) => assert CommitError(tx, applied) in Events(trail, tx);
    case Stopped(hooks) =>
    case Retried(hooks, next) =>
      AppliedIsLogged(next, tx + 1);
      var head := [Began(tx)] + Registrations(tx, hooks) + [RolledBack(tx)];
      assert Events(trail, tx) == head + Events(next, tx + 1);
      assert forall e :: e in Events(trail, tx) <==> e in head || e in Events(next, tx + 1);
      assert forall e :: e in head ==> e.Began? || e.Registered? || e.RolledBack?;
  }

  /** Attempt i is tried: it is within the budget and all before it fail retryably. */
  ghost predicate Reached(lease: bool, world: World, tx: nat, budget: nat, i: nat) {
    tx <= i <= tx + budget && forall j :: tx <= j < i ==> Retryable(lease, world(j))
  }

  /** The mutation takes effect exactly when an attempt that is reached has its commit applied; the
      request is answered with success exactly when such a commit is reported as well, and with a
      commit failure exactly when an attempt that is reached tries its commit and learns of no
      success. */
  lemma {:induction false} CommitsIffReached(lease: bool, world: World, tx: nat, budget: nat)
    ensures var trail := TrailOf(lease, world, tx, budget);
      var reply := ReplyTo(lease, world(tx + Retries(trail)));
      && (Applied(trail) <==> exists i :: Reached(lease, world, tx, budget, i) && Applies(lease, world(i)))
      && (reply == Success <==> exists i :: Reached(lease, world, tx, budget, i) && Reports(lease, world(i)))
      && (reply == CommitFailure <==>
          exists i :: Reached(lease, world, tx, budget, i) && ReachesCommit(lease, world(i))
                      && !Reports(lease, world(i)))
  {
    RetriesAre(lease, world, tx, budget);
    var n := Retries(TrailOf(lease, world, tx, budget));
    assert Reached(lease, world, tx, budget, tx + n);
    forall i | Reached(lease, world, tx, budget, i) && ReachesCommit(lease, world(i)) ensures i == tx + n {
      assert !Retryable(lease, world(i));
    }
  }

  // ---- What every trail guarantees ----

  function Count(log: seq<Event>, p: Event -> bool): nat {
    if log == [] then 0 else (if p(log[0]) then 1 else 0) + Count(log[1..], p)
  }

  lemma {:induction false} CountAppend(a: seq<Event>, b: seq<Event>, p: Event -> bool)
    ensures Count(a + b, p) == Count(a, p) + Count(b, p)
  {
    if a == [] {
      assert a + b == b;
    } else {
      assert (a + b)[1..] == a[1..] + b;
      CountAppend(a[1..], b, p);
    }
  }

  lemma {:induction false} CountNone(a: seq<Event>, p: Event -> bool)
    requires forall e :: e in a ==> !p(e)
    ensures Count(a, p) == 0
  {
    if a != [] {
      CountNone(a[1..], p);
    }
  }

  /** At most one transaction more than the budget, and at most one commit is even tried. */
  lemma {:induction false} BoundedAttempts(trail: Trail, tx: nat)
    ensures Count(Events(trail, tx), (e: Event) => e.Began?) <= Retries(trail) + 1
    ensures Count(Events(trail, tx), (e: Event) => e.CommitOk? || e.CommitError?) <= 1
  {
    var began, tried := (e: Event) => e.Began?, (e: Event) => e.CommitOk? || e.CommitError?;
    match trail
    case BeginFailed =>
    case Committed(hooks) =>
      CountParts(tx, hooks, [CommitOk(tx)], Runs(tx, hooks), began);
      CountParts(tx, hooks, [CommitOk(tx)], Runs(tx, hooks), tried);
      CountNone(Runs(tx, hooks), began);
      CountNone(Runs(tx, hooks), tried);
    case CommitFailed(hooks, applied) =>
      var end := CommitError(tx, applied);
      CountParts(tx, hooks, [end], [], began);
      CountParts(tx, hooks, [end], [], tried);
      assert Events(trail, tx) == [Began(tx)] + Registrations(tx, hooks) + [end] + [];
    case Stopped(hooks) =>
      CountParts(tx, hooks, [RolledBack(tx)], [], began);
      CountParts(tx, hooks, [RolledBack(tx)], [], tried);
      assert Events(trail, tx) == [Began(tx)] + Registrations(tx, hooks) + [RolledBack(tx)] + [];
    case Retried(hooks, next) =>
      CountParts(tx, hooks, [RolledBack(tx)], Events(next, tx + 1), began);
      CountParts(tx, hooks, [RolledBack(tx)], Events(next, tx + 1), tried);
      BoundedAttempts(next, tx + 1);
  }

  lemma {:induction false} CountParts(tx: nat, hooks: seq<Hook>, end: seq<Event>, rest: seq<Event>, p: Event -> bool)
    requires forall h :: !p(Registered(tx, h))
    ensures Count([Began(tx)] + Registrations(tx, hooks) + end + rest, p)
         == (if p(Began(tx)) then 1 else 0) + Count(end, p) + Count(rest, p)
  {
    CountAppend([Began(tx)] + Registrations(tx, hooks) + end, rest, p);
    CountAppend([Began(tx)] + Registrations(tx, hooks), end, p);
    CountAppend([Began(tx)], Registrations(tx, hooks), p);
    CountNone(Registrations(tx, hooks), p);
    assert Count([Began(tx)][1..], p) == 0;
  }

  /** The hooks of the attempt whose commit was reported, none without one. */
  function CommittedHooks(trail: Trail): seq<Hook> {
    if Last(trail).Committed? then Last(trail).hooks else []
  }

  function RunBy(e: Event): seq<Hook> { if e.Ran? then [e.hook] else [] }

  function RunsIn(log: seq<Event>): seq<Hook> {
    if log == [] then [] else RunBy(log[0]) + RunsIn(log[1..])
  }

  function RegisteredBy(e: Event, tx: nat): seq<Hook> { if e.Registered? && e.tx == tx then [e.hook] else [] }

  function RegisteredIn(log: seq<Event>, tx: nat): seq<Hook> {
    if log == [] then [] else RegisteredBy(log[0], tx) + RegisteredIn(log[1..], tx)
  }

  lemma {:induction false} FirstEvent(e: Event, rest: seq<Event>, other: nat)
    ensures RunsIn([e] + rest) == RunBy(e) + RunsIn(rest)
    ensures RegisteredIn([e] + rest, other) == RegisteredBy(e, other) + RegisteredIn(rest, other)
  {
    hide RunBy, RegisteredBy;
    assert ([e] + rest)[0] == e && ([e] + rest)[1..] == rest;
  }

  lemma {:induction false} RegistrationsThen(tx: nat, hooks: seq<Hook>, rest: seq<Event>, other: nat)
    ensures RunsIn(Registrations(tx, hooks) + rest) == RunsIn(rest)
    ensures RegisteredIn(Registrations(tx, hooks) + rest, other) ==
        (if other == tx then hooks else []) + RegisteredIn(rest, other)
  {
    hide RunsIn, RegisteredIn;
    if hooks == [] {
      assert Registrations(tx, hooks) + rest == rest;
    } else {
      var first, others := Registered(tx, hooks[0]), Registrations(tx, hooks[1..]) + rest;
      assert Registrations(tx, hooks) + rest == [first] + others;
      FirstEvent(first, others, other);
      RegistrationsThen(tx, hooks[1..], rest, other);
      assert hooks == [hooks[0]] + hooks[1..];
    }
  }

  lemma {:induction false} RunsOf(tx: nat, hooks: seq<Hook>, other: nat)
    ensures RunsIn(Runs(tx, hooks)) == hooks && RegisteredIn(Runs(tx, hooks), other) == []
  {
    if hooks != [] {
      hide RunsIn, RegisteredIn;
      assert Runs(tx, hooks) == [Ran(tx, hooks[0])] + Runs(tx, hooks[1..]);
      FirstEvent(Ran(tx, hooks[0]), Runs(tx, hooks[1..]), other);
      RunsOf(tx, hooks[1..], other);
      assert hooks == [hooks[0]] + hooks[1..];
    }
  }

  lemma {:induction false} HeadRuns(tx: nat, hooks: seq<Hook>, end: Event, rest: seq<Event>, other: nat)
    requires !end.Ran? && !end.Registered?
    ensures RunsIn([Began(tx)] + Registrations(tx, hooks) + [end] + rest) == RunsIn(rest)
    ensures RegisteredIn([Began(tx)] + Registrations(tx, hooks) + [end] + rest, other)
         == (if other == tx then hooks else []) + RegisteredIn(rest, other)
  {
    hide RunsIn, RegisteredIn, Registrations;
    var later := [end] + rest;
    assert [Began(tx)] + Registrations(tx, hooks) + [end] + rest == [Began(tx)] + (Registrations(tx, hooks) + later);
    FirstEvent(Began(tx), Registrations(tx, hooks) + later, other);
    RegistrationsThen(tx, hooks, later, other);
    FirstEvent(end, rest, other);
  }

  lemma {:induction false} NoEvents(other: nat)
    ensures RunsIn([]) == [] && RegisteredIn([], other) == []
  {
  }

  lemma {:induction false} HooksIn(trail: Trail, tx: nat, other: nat)
    ensures RunsIn(Events(trail, tx)) == CommittedHooks(trail)
    ensures !Last(trail).BeginFailed? && other == tx + Retries(trail) ==>
        RegisteredIn(Events(trail, tx), other) == Last(trail).hooks
    ensures other > tx + Retries(trail) || other < tx ==> RegisteredIn(Events(trail, tx), other) == []
  {
    NoEvents(other);
    hide RunsIn, RegisteredIn, Registrations, Runs;
    match trail
    case BeginFailed =>
    case Committed(hooks) =>
      HeadRuns(tx, hooks, CommitOk(tx), Runs(tx, hooks), other);
      RunsOf(tx, hooks, other);
    case CommitFailed(hooks, applied) =>
      HeadRuns(tx, hooks, CommitError(tx, applied), [], other);
      assert Events(trail, tx) == [Began(tx)] + Registrations(tx, hooks) + [CommitError(tx, applied)] + [];
    case Stopped(hooks) =>
      HeadRuns(tx, hooks, RolledBack(tx), [], other);
      assert Events(trail, tx) == [Began(tx)] + Registrations(tx, hooks) + [RolledBack(tx)] + [];
    case Retried(hooks, next) =>
      HeadRuns(tx, hooks, RolledBack(tx), Events(next, tx + 1), other);
      HooksIn(next, tx + 1, other);
  }

  /** Every attempt up to the last one that began leaves in the log the hooks its resolvers registered, if
      they ran at all, and no other attempt leaves any. */
  lemma {:induction false} RegisteredHooks(lease: bool, world: World, tx: nat, budget: nat, i: nat)
    ensures var trail := TrailOf(lease, world, tx, budget);
      RegisteredIn(Events(trail, tx), i) ==
        if tx <= i <= tx + Retries(trail) && world(i).begins && (!lease || world(i).insert == Inserted)
        then world(i).hooks else []
    decreases budget
  {
    var a, trail := world(tx), TrailOf(lease, world, tx, budget);
    HooksIn(trail, tx, i);
    NoEvents(i);
    hide RegisteredIn, RunsIn;
    if trail.Retried? {
      RegisteredHooks(lease, world, tx + 1, budget - 1, i);
      RetriedRegisters(trail, tx, i);
    }
  }

  lemma {:induction false} RetriedRegisters(trail: Trail, tx: nat, i: nat)
    requires trail.Retried?
    ensures RegisteredIn(Events(trail, tx), i) ==
        (if i == tx then trail.hooks else []) + RegisteredIn(Events(trail.next, tx + 1), i)
    ensures i == tx ==> RegisteredIn(Events(trail.next, tx + 1), i) == []
  {
    HeadRuns(tx, trail.hooks, RolledBack(tx), Events(trail.next, tx + 1), i);
    HooksIn(trail.next, tx + 1, i);
  }

  /** Only hooks registered in an attempt whose transaction was applied ever run, and they run in
      order and once each.  When a transaction was applied, its hooks are the ones run exactly if its
      commit was reported or there are none; when none was applied, no hook runs. */
  lemma {:induction false} HooksOfCommit(trail: Trail, tx: nat)
    ensures var run, registered := RunsIn(Events(trail, tx)), RegisteredIn(Events(trail, tx), tx + Retries(trail));
      && (Applied(trail) ==> (run == registered <==> Last(trail).Committed? || registered == []))
      && (run == registered || run == [])
      && (!Applied(trail) ==> run == [])
  {
    HooksIn(trail, tx, tx + Retries(trail));
  }

  /** Every hook runs after its own transaction's commit, and nothing follows a commit but hooks. */
  lemma {:induction false} HooksAfterCommit(trail: Trail, tx: nat, j: nat)
    requires j < |Events(trail, tx)|
    ensures Events(trail, tx)[j].Ran? ==>
        exists i :: 0 <= i < j && Events(trail, tx)[i] == CommitOk(Events(trail, tx)[j].tx)
    ensures Events(trail, tx)[j].CommitOk? ==> forall i :: j < i < |Events(trail, tx)| ==> Events(trail, tx)[i].Ran?
    ensures Events(trail, tx)[j].CommitError? ==> j == |Events(trail, tx)| - 1
  {
    match trail
    case BeginFailed =>
    case Committed(hooks) =>
      assert Events(trail, tx)[1 + |hooks|] == CommitOk(tx);
    case CommitFailed(_, _) =>
    case Stopped(_) =>
    case Retried(hooks, next) =>
      var n := 2 + |hooks|;
      if j >= n {
        HooksAfterCommit(next, tx + 1, j - n);
        assert forall i :: n <= i < |Events(trail, tx)| ==> Events(trail, tx)[i] == Events(next, tx + 1)[i - n];
        if Events(trail, tx)[j].Ran? {
          var i :| 0 <= i < j - n && Events(next, tx + 1)[i] == CommitOk(Events(next, tx + 1)[j - n].tx);
          assert Events(trail, tx)[i + n] == CommitOk(Events(trail, tx)[j].tx);
        }
      }
  }

  // ---- Which mutations run without a transaction ----

  datatype FieldName = FieldName(token: int)

  /** exemptFromTx: exempt means one single field that is exempt; mixed means an exempt field that
      is not alone, even beside itself under another alias. */
  method ExemptFromTx(noTxOperations: set<FieldName>, fields: seq<FieldName>) returns (exempt: bool, mixed: bool)
    ensures exempt <==> |fields| == 1 && fields[0] in noTxOperations
    ensures mixed <==> |fields| > 1 && exists f :: f in fields && f in noTxOperations
  {
    if noTxOperations == {} || |fields| == 0 {
      return false, false;
    }
    var matched := 0;
    for i := 0 to |fields|
      invariant 0 <= matched <= i
      invariant matched > 0 <==> exists f :: f in fields[..i] && f in noTxOperations
      invariant matched == i <==> forall f :: f in fields[..i] ==> f in noTxOperations
    {
      assert fields[..i + 1] == fields[..i] + [fields[i]];
      if fields[i] in noTxOperations {
        matched := matched + 1;
      }
    }
    assert fields[..|fields|] == fields;
    if matched == 0 {
      return false, false;
    }
    if matched == |fields| {
      return |fields| == 1, |fields| > 1;
    }
    return false, true;
  }
}
