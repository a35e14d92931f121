/**
 * After-sales tickets: `MySQLCommerceAdapter.create` over a table with a unique constraint, against the
 * atomic `MockAfterSalesAdapter.create`.
 */
module Tickets {
  import opened Text

  datatype Ticket = Ticket(
    id: string, userId: string, orderId: string, issueType: string, description: string, key: string)

  datatype Request = Request(userId: string, orderId: string, issueType: string, description: string, key: string)

  function NewTicket(q: Request, upper: char -> char, id: string): Ticket {
    Ticket(id, q.userId, MapChars(q.orderId, upper), q.issueType, q.description, q.key)
  }

  // ---- the atomic adapter ----

  datatype Mock = Mock(tickets: map<string, Ticket>, index: map<(string, string), string>)

  predicate Indexed(m: Mock) {
    forall s :: s in m.index ==> m.index[s] in m.tickets
  }

  /** One atomic call. `id` is the random identifier it would use. */
  function Created(m: Mock, q: Request, upper: char -> char, id: string): (Mock, Ticket) {
    var scope := (q.userId, q.key);
    if q.key != "" && scope in m.index && m.index[scope] in m.tickets then (m, m.tickets[m.index[scope]])
    else
      var t := NewTicket(q, upper, id);
      (Mock(m.tickets[id := t], if q.key != "" then m.index[scope := id] else m.index), t)
  }

  class MockAfterSalesAdapter {
    var tickets: map<string, Ticket>
    var index: map<(string, string), string>

    ghost function Value(): Mock
      reads this
    {
      Mock(tickets, index)
    }

    method Create(q: Request, upper: char -> char, id: string) returns (t: Ticket)
      requires Indexed(Value())
      modifies this
      ensures Indexed(Value())
      ensures (Value(), t) == Created(old(Value()), q, upper, id)
    {
      var scope := (q.userId, q.key);
      if q.key != "" && scope in index { return tickets[index[scope]]; }
      t := NewTicket(q, upper, id);
      tickets := tickets[t.id := t];
      if q.key != "" {
        index := index[scope := t.id];
      }
    }
  }

  // ---- the table ----

  /** The rows of this user under this key. A row without a key holds a null, which matches nothing. */
  function Matching(rows: seq<Ticket>, user: string, key: string): (r: seq<Ticket>)
    ensures forall t :: t in r <==> t in rows && key != "" && t.userId == user && t.key == key
  {
    if rows == [] || key == "" then []
    else (if rows[0].userId == user && rows[0].key == key then [rows[0]] else []) + Matching(rows[1..], user, key)
  }

  /** The primary key and the unique constraint on user and key; nulls do not conflict. */
  predicate Accepts(rows: seq<Ticket>, t: Ticket) {
    forall r :: r in rows ==> r.id != t.id && (t.key != "" ==> r.userId != t.userId || r.key != t.key)
  }

  datatype Pc =
    | LookUp
    | Insert(ticket: Ticket)
    | ReRead
    | Returned(ticket: Ticket)
    | Raised

  /** The outcome of `_ticket_by_key`: more than one row is an error. */
  function AfterLookup(found: seq<Ticket>, missing: Pc): Pc {
    if |found| == 0 then missing else if |found| == 1 then Returned(found[0]) else Raised
  }

  /** One transaction of a call, with the identifier drawn after a lookup that finds nothing. */
  function Next(rows: seq<Ticket>, q: Request, upper: char -> char, pc: Pc, id: string): (seq<Ticket>, Pc) {
    match pc
    case LookUp => (rows, AfterLookup(Matching(rows, q.userId, q.key), Insert(NewTicket(q, upper, id))))
    case Insert(t) => if Accepts(rows, t) then (rows + [t], Returned(t)) else (rows, ReRead)
    case ReRead => (rows, AfterLookup(Matching(rows, q.userId, q.key), Raised))
    case _ => (rows, pc)
  }

  function TicketOf(pc: Pc): Option<Ticket> {
    if pc.Returned? then Some(pc.ticket) else None
  }

  class MySQLCommerceAdapter {
    var tickets: seq<Ticket>

    /** `create` when nobody interferes: its transactions one after another. `None` is the re-raised integrity error. */
    method Create(q: Request, upper: char -> char, id: string) returns (t: Option<Ticket>)
      modifies this
      ensures var (r1, pc1) := Next(old(tickets), q, upper, LookUp, id);
        var (r2, pc2) := Next(r1, q, upper, pc1, id);
        var (r3, pc3) := Next(r2, q, upper, pc2, id);
        tickets == r3 && t == TicketOf(pc3)
    {
      var found := Matching(tickets, q.userId, q.key);
      if |found| > 1 { return None; }
      if |found| == 1 { return Some(found[0]); }
      var ticket := NewTicket(q, upper, id);
      if Accepts(tickets, ticket) {
        tickets := tickets + [ticket];
        return Some(ticket);
      }
      found := Matching(tickets, q.userId, q.key);
      t := TicketOf(AfterLookup(found, Raised));
    }
  }

  // ---- any number of calls ----

  datatype Call = Call(request: Request, pc: Pc)

  /** `drawn` records which call drew each identifier; `log` lists the calls in the order they returned. */
  datatype System = System(rows: seq<Ticket>, calls: map<nat, Call>, drawn: map<string, nat>, log: seq<Entry>)

  datatype Entry = Entry(request: Request, id: string, result: Ticket)

  datatype Action = Begin(call: nat, request: Request) | Step(call: nat, id: string)

  predicate Enabled(s: System, a: Action) {
    match a
    case Begin(c, _) => c !in s.calls
    case Step(c, id) =>
      && c in s.calls && !s.calls[c].pc.Returned? && !s.calls[c].pc.Raised?
      && (s.calls[c].pc.LookUp? ==> id !in s.drawn)
  }

  function After(s: System, upper: char -> char, a: Action): System
    requires Enabled(s, a)
  {
    match a
    case Begin(c, q) => s.(calls := s.calls[c := Call(q, LookUp)])
    case Step(c, id) =>
      var call := s.calls[c];
      var (rows, pc) := Next(s.rows, call.request, upper, call.pc, id);
      System(rows, s.calls[c := call.(pc := pc)],
             if call.pc.LookUp? then s.drawn[id := c] else s.drawn,
             if !pc.Returned? then s.log
             else s.log + [Entry(call.request, if call.pc.Insert? then call.pc.ticket.id else id, pc.ticket)])
  }

  ghost predicate IsRun(upper: char -> char, run: seq<System>, actions: seq<Action>) {
    && |run| == |actions| + 1 && run[0] == System([], map[], map[], [])
    && forall k :: 0 <= k < |actions| ==> Enabled(run[k], actions[k]) && run[k + 1] == After(run[k], upper, actions[k])
  }

  ghost predicate Unique(rows: seq<Ticket>) {
    forall a, b :: 0 <= a < b < |rows| ==>
      rows[a].id != rows[b].id && (rows[a].key != "" ==> rows[a].userId != rows[b].userId || rows[a].key != rows[b].key)
  }

  predicate CallOk(s: System, upper: char -> char, c: nat)
    requires c in s.calls
  {
    var q := s.calls[c].request;
    match s.calls[c].pc
    case LookUp => true
    case Insert(t) =>
      && t == NewTicket(q, upper, t.id) && t.id in s.drawn && s.drawn[t.id] == c
      && forall r :: r in s.rows ==> r.id != t.id
    case ReRead => q.key != "" && Matching(s.rows, q.userId, q.key) != []
    case Returned(t) => t in s.rows && t.userId == q.userId && t.key == q.key
    case Raised => false
  }

  ghost predicate Inv(s: System, upper: char -> char) {
    && Unique(s.rows)
    && (forall r :: r in s.rows ==> r.id in s.drawn)
    && (forall id :: id in s.drawn ==> s.drawn[id] in s.calls)
    && (forall c :: c in s.calls ==> CallOk(s, upper, c))
  }

  /** A unique table never has two matching rows. */
  lemma {:induction false} AtMostOneMatch(rows: seq<Ticket>, user: string, key: string)
    requires Unique(rows)
    ensures |Matching(rows, user, key)| <= 1
  {
    if rows != [] && key != "" {
      AtMostOneMatch(rows[1..], user, key);
      if rows[0].userId == user && rows[0].key == key {
        NoMatch(rows[1..], user, key);
      }
    }
  }

  lemma {:induction false} NoMatch(rows: seq<Ticket>, user: string, key: string)
    requires forall r :: r in rows ==> r.userId != user || r.key != key
    ensures Matching(rows, user, key) == []
  {
    if rows != [] { NoMatch(rows[1..], user, key); }
  }

  lemma InsertKeeps(s: System, upper: char -> char, c: nat, id: string)
    requires Inv(s, upper) && Enabled(s, Step(c, id)) && s.calls[c].pc.Insert?
    ensures Inv(After(s, upper, Step(c, id)), upper)
  {
    var t := After(s, upper, Step(c, id));
    assert CallOk(s, upper, c);
    forall d | d in t.calls ensures CallOk(t, upper, d) {
      assert CallOk(s, upper, d);
      if s.calls[d].pc.ReRead? && d != c {
        var q := s.calls[d].request;
        assert Matching(s.rows, q.userId, q.key)[0] in Matching(t.rows, q.userId, q.key);
      }
    }
  }

  lemma OtherStepsKeep(s: System, upper: char -> char, a: Action)
    requires Inv(s, upper) && Enabled(s, a) && (a.Begin? || !s.calls[a.call].pc.Insert?)
    ensures Inv(After(s, upper, a), upper)
  {
    var t := After(s, upper, a);
    if a.Step? {
      var q := s.calls[a.call].request;
      AtMostOneMatch(s.rows, q.userId, q.key);
      assert CallOk(s, upper, a.call);
    }
    forall d | d in t.calls ensures CallOk(t, upper, d) {
      assert d in s.calls ==> CallOk(s, upper, d);
    }
  }

  lemma {:induction false} RunKeeps(upper: char -> char, run: seq<System>, actions: seq<Action>, k: nat)
    requires IsRun(upper, run, actions) && k < |run|
    ensures Inv(run[k], upper)
  {
    hide After, Inv;
    if k == 0 {
      InvInitially(run[0], upper);
    } else {
      RunKeeps(upper, run, actions, k - 1);
      var a := actions[k - 1];
      if a.Step? && run[k - 1].calls[a.call].pc.Insert? { InsertKeeps(run[k - 1], upper, a.call, a.id); }
      else { OtherStepsKeep(run[k - 1], upper, a); }
    }
  }

  lemma InvInitially(s: System, upper: char -> char)
    requires s == System([], map[], map[], [])
    ensures Inv(s, upper)
  {
  }

  // ---- guarantees ----

  /** At most one row per identifier, and per user and non-empty key. */
  lemma OneRowPerKey(upper: char -> char, run: seq<System>, actions: seq<Action>, k: nat)
    requires IsRun(upper, run, actions) && k < |run|
    ensures Unique(run[k].rows)
  {
    RunKeeps(upper, run, actions, k);
  }

  /** With fresh identifiers no call ever re-raises the integrity error, and a call without a key never meets one. */
  lemma NeverRaises(upper: char -> char, run: seq<System>, actions: seq<Action>, k: nat, c: nat)
    requires IsRun(upper, run, actions) && k < |run| && c in run[k].calls
    ensures run[k].calls[c].pc != Raised
    ensures run[k].calls[c].request.key == "" ==> run[k].calls[c].pc != ReRead
    ensures run[k].calls[c].pc.Insert? && run[k].calls[c].request.key == "" ==>
        Accepts(run[k].rows, run[k].calls[c].pc.ticket)
  {
    RunKeeps(upper, run, actions, k);
    assert CallOk(run[k], upper, c);
  }

  /** All calls of one user under one non-empty key return the same ticket. */
  lemma CallsAgree(upper: char -> char, run: seq<System>, actions: seq<Action>, k: nat, c: nat, d: nat)
    requires IsRun(upper, run, actions) && k < |run| && c in run[k].calls && d in run[k].calls
    requires run[k].calls[c].pc.Returned? && run[k].calls[d].pc.Returned?
    requires run[k].calls[c].request.key == run[k].calls[d].request.key != ""
    requires run[k].calls[c].request.userId == run[k].calls[d].request.userId
    ensures run[k].calls[c].pc.ticket == run[k].calls[d].pc.ticket
  {
    RunKeeps(upper, run, actions, k);
    assert CallOk(run[k], upper, c) && CallOk(run[k], upper, d);
  }

  /** The ticket says what the request said, with the order number in upper case. */
  ghost predicate IsTicketOf(t: Ticket, q: Request, upper: char -> char) {
    && t.userId == q.userId && t.issueType == q.issueType && t.description == q.description && t.key == q.key
    && |t.orderId| == |q.orderId| && forall i :: 0 <= i < |t.orderId| ==> t.orderId[i] == upper(q.orderId[i])
  }

  lemma StepsKeepRequests(s: System, upper: char -> char, a: Action)
    requires Inv(s, upper) && Enabled(s, a)
    ensures var t := After(s, upper, a);
      forall c :: c in s.calls ==> c in t.calls && t.calls[c].request == s.calls[c].request
    ensures forall t :: t in After(s, upper, a).rows && t !in s.rows ==>
      a.Step? && a.call in s.calls && IsTicketOf(t, s.calls[a.call].request, upper)
  {
    if a.Step? { assert CallOk(s, upper, a.call); }
  }

  /** Every ticket is what one of the calls asked for. */
  lemma {:induction false} TicketsAreRequested(
      upper: char -> char, run: seq<System>, actions: seq<Action>, k: nat, t: Ticket)
    requires IsRun(upper, run, actions) && k < |run| && t in run[k].rows
    ensures exists c :: c in run[k].calls && IsTicketOf(t, run[k].calls[c].request, upper)
  {
    if k > 0 {
      RunKeeps(upper, run, actions, k - 1);
      StepsKeepRequests(run[k - 1], upper, actions[k - 1]);
      hide After, Inv, IsTicketOf;
      if t in run[k - 1].rows {
        TicketsAreRequested(upper, run, actions, k - 1, t);
        var c :| c in run[k - 1].calls && IsTicketOf(t, run[k - 1].calls[c].request, upper);
        assert c in run[k].calls;
      } else {
        assert actions[k - 1].call in run[k].calls;
      }
    }
  }

  /** And every call that returns has a ticket of its own user, and without a key the very one it asked for. */
  lemma {:induction false} ReturnsItsTicket(
      upper: char -> char, run: seq<System>, actions: seq<Action>, k: nat, c: nat)
    requires IsRun(upper, run, actions) && k < |run| && c in run[k].calls && run[k].calls[c].pc.Returned?
    ensures var q, t := run[k].calls[c].request, run[k].calls[c].pc.ticket;
      && t in run[k].rows && t.userId == q.userId && t.key == q.key
      && (q.key == "" ==> IsTicketOf(t, q, upper))
  {
    RunKeeps(upper, run, actions, k);
    assert CallOk(run[k], upper, c);
    if run[k].calls[c].request.key == "" { UnkeyedReturns(upper, run, actions, k, c); }
  }

  /** What a call is about to insert, or has inserted without a key, is what it asked for. */
  lemma {:induction false} UnkeyedReturns(
      upper: char -> char, run: seq<System>, actions: seq<Action>, k: nat, c: nat)
    requires IsRun(upper, run, actions) && k < |run| && c in run[k].calls && run[k].calls[c].pc.Returned?
    requires run[k].calls[c].request.key == ""
    ensures IsTicketOf(run[k].calls[c].pc.ticket, run[k].calls[c].request, upper)
  {
    if k > 0 {
      var s, a := run[k - 1], actions[k - 1];
      RunKeeps(upper, run, actions, k - 1);
      if a.Step? && a.call == c {
        assert CallOk(s, upper, c);
        assert Matching(s.rows, s.calls[c].request.userId, "") == [];
      } else {
        UnkeyedReturns(upper, run, actions, k - 1, c);
      }
    }
  }

  function Add(m: Mock, t: Ticket): Mock {
    Mock(m.tickets[t.id := t], if t.key != "" then m.index[(t.userId, t.key) := t.id] else m.index)
  }

  /** The state of the atomic adapter that a table stands for. */
  function AbstractOf(rows: seq<Ticket>): Mock {
    if rows == [] then Mock(map[], map[]) else Add(AbstractOf(rows[..|rows| - 1]), rows[|rows| - 1])
  }

  lemma {:induction false} AbstractHas(rows: seq<Ticket>)
    requires Unique(rows)
    ensures forall r :: r in rows ==> r.id in AbstractOf(rows).tickets && AbstractOf(rows).tickets[r.id] == r
    ensures forall r :: r in rows && r.key != "" ==> (r.userId, r.key) in AbstractOf(rows).index
    ensures forall r :: r in rows && r.key != "" ==> AbstractOf(rows).index[(r.userId, r.key)] == r.id
    ensures forall x :: x in AbstractOf(rows).index ==> exists r :: r in rows && x == (r.userId, r.key)
  {
    if rows != [] {
      var n := |rows| - 1;
      AbstractHas(rows[..n]);
      assert rows == rows[..n] + [rows[n]];
      forall r | r in rows[..n]
        ensures r.id != rows[n].id && (r.key != "" ==> r.userId != rows[n].userId || r.key != rows[n].key)
      {
        var a :| 0 <= a < n && rows[a] == r;
      }
    }
  }

  lemma MatchIsAbstract(rows: seq<Ticket>, q: Request, upper: char -> char, id: string, found: Ticket)
    requires Unique(rows) && Matching(rows, q.userId, q.key) == [found]
    ensures Created(AbstractOf(rows), q, upper, id) == (AbstractOf(rows), found)
  {
    AbstractHas(rows);
    assert found in Matching(rows, q.userId, q.key);
  }

  lemma InsertIsAbstract(rows: seq<Ticket>, q: Request, upper: char -> char, t: Ticket)
    requires Unique(rows) && Accepts(rows, t) && t == NewTicket(q, upper, t.id)
    ensures Created(AbstractOf(rows), q, upper, t.id) == (AbstractOf(rows + [t]), t)
  {
    AbstractHas(rows);
    assert (rows + [t])[..|rows|] == rows;
  }

  /** A call takes effect when it returns: that step is one atomic `create`, and every other step changes nothing. */
  lemma StepRefines(s: System, upper: char -> char, a: Action)
    requires Inv(s, upper) && Enabled(s, a)
    ensures var t := After(s, upper, a);
      || (t.log == s.log && t.rows == s.rows)
      || (exists e :: t.log == s.log + [e]
            && Created(AbstractOf(s.rows), e.request, upper, e.id) == (AbstractOf(t.rows), e.result))
  {
    if a.Step? {
      var t, call := After(s, upper, a), s.calls[a.call];
      assert CallOk(s, upper, a.call);
      if t.calls[a.call].pc.Returned? {
        var e := t.log[|s.log|];
        assert t.log == s.log + [e];
        if call.pc.Insert? {
          InsertIsAbstract(s.rows, call.request, upper, call.pc.ticket);
        } else {
          MatchIsAbstract(s.rows, call.request, upper, a.id, e.result);
        }
      }
    }
  }

  /** The atomic adapter after the logged calls, made one after another. */
  function Replayed(upper: char -> char, log: seq<Entry>): Mock {
    if log == [] then Mock(map[], map[])
    else Created(Replayed(upper, log[..|log| - 1]), log[|log| - 1].request, upper, log[|log| - 1].id).0
  }

  /** What the atomic adapter returns from the last logged call. */
  function LastResult(upper: char -> char, log: seq<Entry>): Ticket
    requires log != []
  {
    Created(Replayed(upper, log[..|log| - 1]), log[|log| - 1].request, upper, log[|log| - 1].id).1
  }

  /**
   * Every run of concurrent calls is a run of atomic calls in the order they return, with the same tickets
   * and results.
   */
  lemma {:induction false} RefinesAtomicCreate(upper: char -> char, run: seq<System>, actions: seq<Action>, k: nat)
    requires IsRun(upper, run, actions) && k < |run|
    ensures Replayed(upper, run[k].log) == AbstractOf(run[k].rows)
    ensures forall n :: 0 < n <= |run[k].log| ==> run[k].log[n - 1].result == LastResult(upper, run[k].log[..n])
  {
    if k > 0 {
      RefinesAtomicCreate(upper, run, actions, k - 1);
      RunKeeps(upper, run, actions, k - 1);
      StepRefines(run[k - 1], upper, actions[k - 1]);
      hide *;
      LogGoesOn(upper, run[k - 1], run[k]);
    }
  }

  /** The log grows by at most one entry, and that entry is right. */
  lemma LogGoesOn(upper: char -> char, s: System, t: System)
    requires Replayed(upper, s.log) == AbstractOf(s.rows)
    requires forall n :: 0 < n <= |s.log| ==> s.log[n - 1].result == LastResult(upper, s.log[..n])
    requires
      || (t.log == s.log && t.rows == s.rows)
      || (exists e :: t.log == s.log + [e]
            && Created(AbstractOf(s.rows), e.request, upper, e.id) == (AbstractOf(t.rows), e.result))
    ensures Replayed(upper, t.log) == AbstractOf(t.rows)
    ensures forall n :: 0 < n <= |t.log| ==> t.log[n - 1].result == LastResult(upper, t.log[..n])
  {
    hide Created, AbstractOf;
    if t.log != s.log {
      var e := t.log[|s.log|];
      assert t.log == s.log + [e] && t.log[..|s.log|] == s.log && t.log[..|t.log|] == t.log;
      forall n | 0 < n <= |t.log| ensures t.log[n - 1].result == LastResult(upper, t.log[..n]) {
        if n <= |s.log| {
          assert t.log[..n] == s.log[..n] && t.log[n - 1] == s.log[n - 1];
        }
      }
    }
  }
}
