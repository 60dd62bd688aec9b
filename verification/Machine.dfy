/** The ledger state machine with its clock and transfer index, one step of the live event loop
  * (internal/engine/loop.go) and one step of replay (internal/engine/ledger.go), as functions. */
module Machine {
  import opened Core
  import opened Engine
  import opened Expiry
  import opened Batch

  /** An AccountManager's contents: books, logical clock, transfer index and account histories. */
  datatype State = State(books: Books, clock: I64, transfers: map<Id, Transfer>, history: map<Id, seq<Id>>)

  const EMPTY := State(Books(map[], map[]), 0, map[], map[])

  datatype Applied = Applied(state: State, err: Option<Error>)

  function Extended(history: map<Id, seq<Id>>, a: Id, id: Id): map<Id, seq<Id>> {
    history[a := (if a in history then history[a] else []) + [id]]
  }

  /** recordTransfer: index the operation and append it to its accounts' histories. */
  function Recorded(s: State, t: Transfer): State {
    var h := if t.debit != t.credit then Extended(s.history, t.debit, t.id) else s.history;
    s.(transfers := s.transfers[t.id := t], history := Extended(h, t.credit, t.id))
  }

  /** A settlement is recorded with the fields it left blank taken from its hold. */
  function Filled(b: Books, t: Transfer): Transfer {
    if IsSettlement(t) && t.id in b.holds then
      var p := b.holds[t.id];
      t.(ledger := if t.ledger == 0 then p.ledger else t.ledger,
         debit := if t.debit == ZERO_ID then p.debit else t.debit,
         credit := if t.credit == ZERO_ID then p.credit else t.credit)
    else t
  }

  /** ApplyTransferState. */
  function ApplyTransfer(s: State, t: Transfer): Applied {
    var e := Exec(s.books, t);
    if e.err.Some? then Applied(s.(books := e.books), e.err)
    else Applied(Recorded(s.(books := e.books), Filled(s.books, t)), None)
  }

  /** The state after all of `ts`, none of which fails. */
  function ApplyAll(s: State, ts: seq<Transfer>): Applied
    decreases |ts|
  {
    if ts == [] then Applied(s, None)
    else
      var a := ApplyTransfer(s, ts[0]);
      if a.err.Some? then a else ApplyAll(a.state, ts[1..])
  }

  datatype BatchResult = BatchResult(state: State, outcomes: seq<Option<Error>>)

  /** ApplyBatch: apply the events with no error yet; one that fails now gets its error. */
  function ApplyBatch(s: State, evs: seq<Transfer>, outcomes: seq<Option<Error>>): (r: BatchResult)
    requires |evs| == |outcomes|
    ensures |r.outcomes| == |evs|
    decreases |evs|
  {
    if evs == [] then BatchResult(s, [])
    else
      var a := if outcomes[0].Some? then Applied(s, outcomes[0]) else ApplyTransfer(s, evs[0]);
      var rest := ApplyBatch(a.state, evs[1..], outcomes[1..]);
      BatchResult(rest.state, [a.err] + rest.outcomes)
  }

  /* ----- journal and replay ----- */

  datatype Record = AccountRecord(account: Account) | TransferRecord(transfer: Transfer)

  ghost function CloseExpired(s: State, clock: I64): State {
    s.(clock := clock, books := CloseAt(s.books, clock))
  }

  function Later(x: I64, y: I64): I64 { if y > x then y else x }

  /** The replay handler on one record. */
  ghost function ReplayRecord(s: State, r: Record): Applied {
    match r
    case AccountRecord(acc) => Applied(s.(books := Create(s.books, acc)), None)
    case TransferRecord(t) => ApplyTransfer(CloseExpired(s, Later(s.clock, t.timestamp)), t)
  }

  /** Replay of a run of records, stopping at the first error. */
  ghost function Replay(s: State, rs: seq<Record>): Applied
    decreases |rs|
  {
    if rs == [] then Applied(s, None)
    else
      var a := ReplayRecord(s, rs[0]);
      if a.err.Some? then a else Replay(a.state, rs[1..])
  }

  /* ----- the live loop ----- */

  /** The loop's state: the ledger, the batch clock, and the batches appended to the WAL. */
  datatype Live = Live(state: State, clock: I64, log: seq<seq<Record>>)

  const START := Live(EMPTY, 0, [])

  datatype Event =
    | Accounts(accounts: seq<Account>)
    | Transfers(now: I64, transfers: seq<Transfer>)

  function Flatten(log: seq<seq<Record>>): seq<Record> {
    if log == [] then [] else Flatten(log[..|log| - 1]) + log[|log| - 1]
  }

  /** The timestamp of a batch: the wall clock, or one past the last batch when that is not later. */
  function BatchClock(clock: I64, now: I64): I64 {
    if now <= clock then ToI64(clock + 1) else now
  }

  function Stamped(evs: seq<Transfer>, clock: I64): (r: seq<Transfer>)
    ensures |r| == |evs|
  {
    seq(|evs|, i requires 0 <= i < |evs| => evs[i].(timestamp := clock))
  }

  function TransferRecords(ts: seq<Transfer>): (r: seq<Record>)
    ensures |r| == |ts|
  {
    seq(|ts|, i requires 0 <= i < |ts| => TransferRecord(ts[i]))
  }

  function AccountRecords(accs: seq<Account>): (r: seq<Record>)
    ensures |r| == |accs|
  {
    seq(|accs|, i requires 0 <= i < |accs| => AccountRecord(accs[i]))
  }

  function Journal(log: seq<seq<Record>>, records: seq<Record>): seq<seq<Record>> {
    if records == [] then log else log + [records]
  }

  /** processBatch. */
  ghost function ProcessBatch(l: Live, now: I64, evs: seq<Transfer>): Live {
    var clock := BatchClock(l.clock, now);
    var s := CloseExpired(l.state, clock);
    var stamped := Stamped(evs, clock);
    var outcomes := RuleBatch(s.transfers.Keys, s.books, stamped).outcomes;
    Live(ApplyBatch(s, stamped, outcomes).state, clock,
         Journal(l.log, TransferRecords(AcceptedEvents(stamped, outcomes))))
  }

  /** The accounts of a request that enter the WAL: sound balance, id not in use before the request. */
  function Admitted(b: Books, accs: seq<Account>): seq<Account> {
    if accs == [] then []
    else (if Balance(accs[0]).Ok? && accs[0].id !in b.accounts then [accs[0]] else []) + Admitted(b, accs[1..])
  }

  function CreateAll(b: Books, accs: seq<Account>): Books {
    if accs == [] then b else Create(CreateAll(b, accs[..|accs| - 1]), accs[|accs| - 1])
  }

  /** processAccountCreate. */
  function ProcessAccounts(l: Live, accs: seq<Account>): Live {
    var admitted := Admitted(l.state.books, accs);
    l.(state := l.state.(books := CreateAll(l.state.books, admitted)),
       log := Journal(l.log, AccountRecords(admitted)))
  }

  ghost function Step(l: Live, e: Event): Live {
    match e
    case Accounts(accs) => ProcessAccounts(l, accs)
    case Transfers(now, evs) => ProcessBatch(l, now, evs)
  }

  ghost function Run(l: Live, es: seq<Event>): Live {
    if es == [] then l else Step(Run(l, es[..|es| - 1]), es[|es| - 1])
  }
}
