/**
 * Session memory: `InMemoryTTLStore`, the per-session lock, and the memory part of `handle`.
 *
 * A turn takes the lock of its session, loads the memory, adds its two messages, truncates, saves and
 * releases. Turns of any sessions interleave; time passes between any two steps.
 */
module Sessions {
  import opened Text

  type Key = (string, string)

  datatype Message = Message(role: string, content: string)

  datatype Memory = Memory(userId: string, sessionId: string, messages: seq<Message>)

  datatype Item = Item(expires: real, memory: Memory)

  type Items = map<Key, Item>

  /** `get`: an item that has expired is dropped, and an empty memory takes its place. */
  function Loaded(items: Items, key: Key, now: real): (Items, Memory) {
    if key in items && items[key].expires > now then (items, items[key].memory)
    else (items - {key}, Memory(key.0, key.1, []))
  }

  function Saved(items: Items, ttl: real, m: Memory, now: real): Items {
    items[(m.userId, m.sessionId) := Item(now + ttl, m)]
  }

  /** `messages[-limit:]`: the last `limit` messages, or all of them for 0; a negative limit drops from the front. */
  function Truncated(messages: seq<Message>, limit: int): seq<Message> {
    if limit > 0 then messages[if |messages| > limit then |messages| - limit else 0..]
    else messages[if -limit < |messages| then -limit else |messages|..]
  }

  predicate IsNamed(m: Memory, key: Key) {
    m.userId == key.0 && m.sessionId == key.1
  }

  /** `kept` is the end of `all`: its last `n` messages, or everything if there are fewer. */
  ghost predicate IsLast(all: seq<Message>, n: nat, kept: seq<Message>) {
    |kept| == (if |all| < n then |all| else n) && exists dropped :: all == dropped + kept
  }

  /** A positive limit keeps the newest messages, 0 keeps them all. */
  lemma TruncatedIs(messages: seq<Message>, limit: nat)
    ensures limit >= 1 ==> IsLast(messages, limit, Truncated(messages, limit))
    ensures limit == 0 ==> Truncated(messages, limit) == messages
  {
    var kept := Truncated(messages, limit);
    assert messages == messages[..|messages| - |kept|] + kept;
  }

  function Turned(m: Memory, question: string, answer: string, limit: int): Memory {
    m.(messages := Truncated(m.messages + [Message("user", question), Message("assistant", answer)], limit))
  }

  class InMemoryTTLStore {
    const ttl: real
    var items: Items

    constructor (ttl: real)
      ensures this.ttl == ttl && items == map[]
    {
      this.ttl, items := ttl, map[];
    }

    method Get(key: Key, now: real) returns (m: Memory)
      modifies this
      ensures (items, m) == Loaded(old(items), key, now)
    {
      if key in items && items[key].expires > now { return items[key].memory; }
      items := items - {key};
      m := Memory(key.0, key.1, []);
    }

    method Save(m: Memory, now: real)
      modifies this
      ensures items == Saved(old(items), ttl, m, now)
    {
      items := items[(m.userId, m.sessionId) := Item(now + ttl, m)];
    }

    method Clear(key: Key)
      modifies this
      ensures items == old(items) - {key}
    {
      items := items - {key};
    }

    /** The memory part of one turn, run under the session lock. */
    method Turn(key: Key, question: string, answer: string, limit: int, loadedAt: real, savedAt: real)
      modifies this
      ensures var (dropped, m) := Loaded(old(items), key, loadedAt);
        items == Saved(dropped, ttl, Turned(m, question, answer, limit), savedAt)
      ensures (forall k :: k in old(items) ==> IsNamed(old(items)[k].memory, k)) && limit >= 1 ==>
        var before := if key in old(items) && old(items)[key].expires > loadedAt then old(items)[key].memory.messages
                      else [];
        && key in items && IsNamed(items[key].memory, key) && items[key].expires == savedAt + ttl
        && IsLast(before + [Message("user", question), Message("assistant", answer)], limit,
                  items[key].memory.messages)
    {
      var memory := Get(key, loadedAt);
      var messages := memory.messages + [Message("user", question), Message("assistant", answer)];
      if limit >= 1 { TruncatedIs(messages, limit); }
      messages := Truncated(messages, limit);
      Save(memory.(messages := messages), savedAt);
    }
  }

  // ---- truncation ----

  predicate Composes(limit: int, h: seq<Message>, more: seq<Message>) {
    Truncated(Truncated(h, limit) + more, limit) == Truncated(h + more, limit)
  }

  /** Truncating after every turn equals truncating the whole history exactly when the limit is not negative. */
  lemma TruncationComposesIff(limit: int)
    ensures (forall h, more :: Composes(limit, h, more)) <==> limit >= 0
  {
    if limit >= 0 {
      forall h, more ensures Composes(limit, h, more) { TruncateTwice(limit, h, more); }
    } else {
      var h, more := seq(-2 * limit, _ => Message("", "")), seq(-limit, _ => Message("", ""));
      assert |Truncated(Truncated(h, limit) + more, limit)| == -limit;
      assert |Truncated(h + more, limit)| == -2 * limit;
      assert !Composes(limit, h, more);
    }
  }

  lemma TruncateTwice(limit: int, h: seq<Message>, more: seq<Message>)
    requires limit >= 0
    ensures Composes(limit, h, more)
  {
    if limit > 0 && |h| > limit {
      var cut := h[|h| - limit..];
      assert h + more == h[..|h| - limit] + (cut + more);
    }
  }

  predicate Bounded(limit: int, h: seq<Message>) {
    |Truncated(h, limit)| <= limit
  }

  /** The limit bounds the stored history exactly when it is positive: 0 keeps everything. */
  lemma TruncationBoundsIff(limit: int)
    ensures (forall h :: Bounded(limit, h)) <==> limit >= 1
  {
    if limit < 1 {
      var h := [Message("", "")];
      assert Truncated(h, 0) == h;
      assert !Bounded(limit, h);
    }
  }

  // ---- turns under the lock ----

  datatype TurnPc = Waiting | Locked | Holding(memory: Memory) | Written | Over

  datatype Turn = Turn(key: Key, pc: TurnPc)

  /** `Reset` marks a clear, or a load that found nothing unexpired. */
  datatype Entry = Committed(key: Key, turn: nat, question: string, answer: string, at: real) | Reset(key: Key)

  /**
   * `stale` names the turns whose session has been cleared since they loaded it, `undone` the sessions in
   * which a turn has undone a clear and that have not been cleared or found expired since.
   */
  datatype System = System(
    now: real, items: Items, holders: map<Key, nat>, turns: map<nat, Turn>, log: seq<Entry>, stale: set<nat>,
    undone: set<Key>)

  datatype Settings = Settings(ttl: real, limit: int)

  datatype Action =
    | Arrive(turn: nat, key: Key)
    | Acquire(turn: nat)
    | Load(turn: nat)
    | Commit(turn: nat, question: string, answer: string)
    | Release(turn: nat)        // at the end, or because the turn raised
    | Clear(key: Key)
    | Tick(seconds: real)

  predicate HasLock(pc: TurnPc) { pc.Locked? || pc.Holding? || pc.Written? }

  predicate Enabled(s: System, a: Action) {
    match a
    case Arrive(t, _) => t !in s.turns
    case Acquire(t) => t in s.turns && s.turns[t].pc.Waiting? && s.turns[t].key !in s.holders
    case Load(t) => t in s.turns && s.turns[t].pc.Locked?
    case Commit(t, _, _) => t in s.turns && s.turns[t].pc.Holding?
    case Release(t) => t in s.turns && HasLock(s.turns[t].pc)
    case Clear(_) => true
    case Tick(seconds) => seconds >= 0.0
  }

  /** The turns that have loaded this session and not yet saved it. */
  function InProgress(turns: map<nat, Turn>, key: Key): set<nat> {
    set t | t in turns && turns[t].key == key && turns[t].pc.Holding?
  }

  /**
   * The turn saves messages that a clear has removed since it loaded them. It does not if it had loaded none,
   * or if its own two messages fill the session.
   */
  predicate UndoesClear(c: Settings, s: System, a: Action) {
    && a.Commit? && a.turn in s.stale && a.turn in s.turns && s.turns[a.turn].pc.Holding?
    && s.turns[a.turn].pc.memory.messages != [] && c.limit != 1 && c.limit != 2
  }

  function Next(c: Settings, s: System, a: Action): System
    requires Enabled(s, a)
  {
    match a
    case Arrive(t, key) => s.(turns := s.turns[t := Turn(key, Waiting)])
    case Acquire(t) =>
      s.(holders := s.holders[s.turns[t].key := t], turns := s.turns[t := s.turns[t].(pc := Locked)])
    case Load(t) =>
      var key := s.turns[t].key;
      var (items, memory) := Loaded(s.items, key, s.now);
      var hit := key in s.items && s.items[key].expires > s.now;
      s.(items := items, turns := s.turns[t := s.turns[t].(pc := Holding(memory))],
         log := if hit then s.log else s.log + [Reset(key)],
         undone := if hit then s.undone else s.undone - {key})
    case Commit(t, question, answer) =>
      s.(items := Saved(s.items, c.ttl, Turned(s.turns[t].pc.memory, question, answer, c.limit), s.now),
         turns := s.turns[t := s.turns[t].(pc := Written)],
         log := s.log + [Committed(s.turns[t].key, t, question, answer, s.now)],
         undone := if UndoesClear(c, s, a) then s.undone + {s.turns[t].key} else s.undone)
    case Release(t) =>
      s.(holders := s.holders - {s.turns[t].key}, turns := s.turns[t := s.turns[t].(pc := Over)])
    case Clear(key) =>
      s.(items := s.items - {key}, log := s.log + [Reset(key)], stale := s.stale + InProgress(s.turns, key),
         undone := s.undone - {key})
    case Tick(seconds) => s.(now := s.now + seconds)
  }

  /** All messages committed to this session since it was last cleared or found expired, in commit order. */
  function Since(log: seq<Entry>, key: Key): seq<Message> {
    if log == [] then []
    else
      var earlier, e := Since(log[..|log| - 1], key), log[|log| - 1];
      if e.key != key then earlier
      else if e.Reset? then []
      else earlier + [Message("user", e.question), Message("assistant", e.answer)]
  }

  lemma SinceAppend(log: seq<Entry>, e: Entry, key: Key)
    ensures Since(log + [e], key) ==
      if e.key != key then Since(log, key)
      else if e.Reset? then []
      else Since(log, key) + [Message("user", e.question), Message("assistant", e.answer)]
  {
    assert (log + [e])[..|log|] == log;
  }

  /** When the session was last written, unless it has been cleared or found expired since. */
  function LastWrite(log: seq<Entry>, key: Key): Option<real> {
    if log == [] then None
    else
      var e := log[|log| - 1];
      if e.key != key then LastWrite(log[..|log| - 1], key)
      else if e.Reset? then None
      else Some(e.at)
  }

  lemma LastWriteAppend(log: seq<Entry>, e: Entry, key: Key)
    ensures LastWrite(log + [e], key)
        == if e.key != key then LastWrite(log, key) else if e.Reset? then None else Some(e.at)
  {
    assert (log + [e])[..|log|] == log;
  }

  /** Any interleaving of turns, clears and time. */
  ghost predicate IsRun(c: Settings, run: seq<System>, actions: seq<Action>) {
    && |run| == |actions| + 1
    && run[0] == System(run[0].now, map[], map[], map[], [], {}, {})
    && forall k :: 0 <= k < |actions| ==> Enabled(run[k], actions[k]) && run[k + 1] == Next(c, run[k], actions[k])
  }

  function Expected(c: Settings, log: seq<Entry>, key: Key): Memory {
    Memory(key.0, key.1, Truncated(Since(log, key), c.limit))
  }

  /** Whoever works on a session holds its lock. */
  ghost predicate LockInv(s: System) {
    && (forall key :: key in s.holders ==>
          && s.holders[key] in s.turns && s.turns[s.holders[key]].key == key && HasLock(s.turns[s.holders[key]].pc))
    && (forall t :: t in s.turns && HasLock(s.turns[t].pc) ==>
          s.turns[t].key in s.holders && s.holders[s.turns[t].key] == t)
    && StaleInv(s)
  }

  /** Only a turn that has loaded its session can be stale. */
  ghost predicate StaleInv(s: System) {
    forall t :: t in s.stale ==> t in s.turns && !s.turns[t].pc.Waiting? && !s.turns[t].pc.Locked?
  }

  /**
   * What a turn has loaded: the session as it stands, or, once that has been cleared, what it was. Nothing is
   * said of a session in which a clear has been undone.
   */
  predicate LoadedOk(c: Settings, s: System, t: nat)
    requires t in s.turns && s.turns[t].pc.Holding?
  {
    var key, memory := s.turns[t].key, s.turns[t].pc.memory;
    && IsNamed(memory, key)
    && if t in s.stale then Since(s.log, key) == [] && key !in s.undone
       else key !in s.undone ==> memory == Expected(c, s.log, key)
  }

  ghost predicate ItemsInv(c: Settings, items: Items, log: seq<Entry>, undone: set<Key>) {
    && (forall key :: key in items ==> IsNamed(items[key].memory, key))
    && (forall key :: key in items && key !in undone ==> items[key].memory == Expected(c, log, key))
    && (forall key :: key in items <==> LastWrite(log, key).Some?)
    && (forall key :: key in items ==> items[key].expires == LastWrite(log, key).value + c.ttl)
  }

  ghost predicate Inv(c: Settings, s: System) {
    && LockInv(s) && ItemsInv(c, s.items, s.log, s.undone)
    && (forall t :: t in s.turns && s.turns[t].pc.Holding? ==> LoadedOk(c, s, t))
  }

  lemma StaleKept(c: Settings, s: System, a: Action)
    requires StaleInv(s) && Enabled(s, a)
    ensures StaleInv(Next(c, s, a))
  {
    hide Turned, Saved, Loaded;
  }

  lemma LockKept(c: Settings, s: System, a: Action)
    requires LockInv(s) && Enabled(s, a)
    ensures LockInv(Next(c, s, a))
  {
    StaleKept(c, s, a);
    hide StaleInv, Turned, Saved, Loaded, InProgress;
  }

  /** Two messages alone are left by a limit of 1 or 2, whatever came before. */
  lemma ShortLimit(h: seq<Message>, pair: seq<Message>, limit: int)
    requires |pair| == 2 && limit >= 0
    ensures Truncated(h + pair, limit) == Truncated(pair, limit) <==> h == [] || limit == 1 || limit == 2
  {
    if h == [] {
      assert h + pair == pair;
    } else if limit == 0 {
      assert |Truncated(h + pair, limit)| > |Truncated(pair, limit)|;
    } else if limit == 1 || limit == 2 {
      assert (h + pair)[|h| + 2 - limit..] == pair[2 - limit..];
    } else {
      assert |Truncated(h + pair, limit)| >= 3;
    }
  }

  /** What a commit stores agrees with the log exactly when it does not undo a clear. */
  lemma CommitStores(c: Settings, s: System, a: Action)
    requires c.limit >= 0 && Inv(c, s) && Enabled(s, a) && a.Commit?
    ensures var u, key := Next(c, s, a), s.turns[a.turn].key;
      && u.items == s.items[key := u.items[key]] && u.items[key].expires == s.now + c.ttl
      && IsNamed(u.items[key].memory, key)
      && (key !in s.undone ==> (u.items[key].memory == Expected(c, u.log, key) <==> !UndoesClear(c, s, a)))
  {
    var key := s.turns[a.turn].key;
    var pair := [Message("user", a.question), Message("assistant", a.answer)];
    SinceAppend(s.log, Committed(key, a.turn, a.question, a.answer, s.now), key);
    assert LoadedOk(c, s, a.turn);
    hide Truncated, Since, Inv;
    if a.turn in s.stale {
      assert [] + pair == pair;
      ShortLimit(s.turns[a.turn].pc.memory.messages, pair, c.limit);
    } else {
      TruncateTwice(c.limit, Since(s.log, key), pair);
    }
  }

  lemma CommitLog(log: seq<Entry>, e: Entry)
    requires e.Committed?
    ensures forall other :: other != e.key ==> Since(log + [e], other) == Since(log, other)
    ensures forall other :: LastWrite(log + [e], other) == if other == e.key then Some(e.at) else LastWrite(log, other)
  {
    forall other | other != e.key ensures Since(log + [e], other) == Since(log, other) { SinceAppend(log, e, other); }
    forall other ensures LastWrite(log + [e], other) == if other == e.key then Some(e.at) else LastWrite(log, other) {
      LastWriteAppend(log, e, other);
    }
  }

  /** A stored memory that agrees with the log, in place of what was stored, leaves all of them in agreement. */
  lemma ItemsAgree(c: Settings, items: Items, log: seq<Entry>, undone: set<Key>, e: Entry, item: Item, after: set<Key>)
    requires ItemsInv(c, items, log, undone) && e.Committed? && (after == undone || after == undone + {e.key})
    requires e.key !in after ==> item.memory == Expected(c, log + [e], e.key)
    requires IsNamed(item.memory, e.key) && item.expires == e.at + c.ttl
    ensures ItemsInv(c, items[e.key := item], log + [e], after)
  {
    CommitLog(log, e);
    hide Truncated, Since, LastWrite, IsNamed;
  }

  lemma CommitItems(c: Settings, s: System, a: Action)
    requires c.limit >= 0 && Inv(c, s) && Enabled(s, a) && a.Commit?
    ensures var u := Next(c, s, a); ItemsInv(c, u.items, u.log, u.undone)
  {
    CommitStores(c, s, a);
    var u, e := Next(c, s, a), Committed(s.turns[a.turn].key, a.turn, a.question, a.answer, s.now);
    assert u.log == s.log + [e] && u.undone == if UndoesClear(c, s, a) then s.undone + {e.key} else s.undone;
    assert ItemsInv(c, s.items, s.log, s.undone);
    hide Next, Inv, ItemsInv, UndoesClear, Expected, IsNamed;
    ItemsAgree(c, s.items, s.log, s.undone, e, u.items[e.key], u.undone);
  }

  lemma CommitKeeps(c: Settings, s: System, a: Action)
    requires c.limit >= 0 && Inv(c, s) && Enabled(s, a) && a.Commit?
    ensures Inv(c, Next(c, s, a))
  {
    CommitItems(c, s, a);
    LockKept(c, s, a);
    CommitLog(s.log, Committed(s.turns[a.turn].key, a.turn, a.question, a.answer, s.now));
    OthersApart(s, a.turn);
    hide Truncated, Since, LastWrite, UndoesClear, Saved, Turned, LockInv, ItemsInv;
    var t := Next(c, s, a);
    forall x | x in t.turns && t.turns[x].pc.Holding? ensures LoadedOk(c, t, x) {
      assert x != a.turn && LoadedOk(c, s, x);
    }
  }

  lemma OthersApart(s: System, t: nat)
    requires LockInv(s) && t in s.turns && HasLock(s.turns[t].pc)
    ensures forall x :: x in s.turns && x != t && HasLock(s.turns[x].pc) ==> s.turns[x].key != s.turns[t].key
  {
  }

  lemma ResetLog(log: seq<Entry>, key: Key)
    ensures forall other :: Since(log + [Reset(key)], other) == if other == key then [] else Since(log, other)
    ensures forall other :: LastWrite(log + [Reset(key)], other) == if other == key then None else LastWrite(log, other)
  {
    forall other ensures Since(log + [Reset(key)], other) == if other == key then [] else Since(log, other) {
      SinceAppend(log, Reset(key), other);
    }
    forall other ensures LastWrite(log + [Reset(key)], other) == if other == key then None else LastWrite(log, other) {
      LastWriteAppend(log, Reset(key), other);
    }
  }

  lemma LoadItems(c: Settings, s: System, a: Action)
    requires Inv(c, s) && Enabled(s, a) && a.Load?
    ensures var u := Next(c, s, a); ItemsInv(c, u.items, u.log, u.undone)
  {
    ResetLog(s.log, s.turns[a.turn].key);
    hide Truncated, Since, LastWrite, LockInv, LoadedOk;
  }

  lemma LoadKeeps(c: Settings, s: System, a: Action)
    requires Inv(c, s) && Enabled(s, a) && a.Load?
    ensures Inv(c, Next(c, s, a))
  {
    assert Truncated([], c.limit) == [];
    ResetLog(s.log, s.turns[a.turn].key);
    LoadItems(c, s, a);
    LockKept(c, s, a);
    OthersApart(s, a.turn);
    assert StaleInv(s) && a.turn !in s.stale;
    hide Truncated, Since, LastWrite, LockInv;
    var t := Next(c, s, a);
    forall x | x in t.turns && t.turns[x].pc.Holding? ensures LoadedOk(c, t, x) {
      assert x != a.turn ==> LoadedOk(c, s, x);
    }
  }

  lemma ClearKeeps(c: Settings, s: System, a: Action)
    requires Inv(c, s) && Enabled(s, a) && a.Clear?
    ensures Inv(c, Next(c, s, a))
  {
    ResetLog(s.log, a.key);
    LockKept(c, s, a);
    hide Truncated, Since, LastWrite, LockInv;
    forall x | x in s.turns && s.turns[x].pc.Holding? ensures LoadedOk(c, Next(c, s, a), x) {
      assert LoadedOk(c, s, x);
    }
  }

  lemma OthersKeep(c: Settings, s: System, a: Action)
    requires Inv(c, s) && Enabled(s, a) && !a.Commit? && !a.Load? && !a.Clear?
    ensures Inv(c, Next(c, s, a))
  {
    LockKept(c, s, a);
    hide Truncated, Since, LastWrite, LockInv, ItemsInv;
    var t := Next(c, s, a);
    forall x | x in t.turns && t.turns[x].pc.Holding? ensures LoadedOk(c, t, x) {
      assert LoadedOk(c, s, x);
    }
  }

  lemma {:induction false} RunKeepsLocks(c: Settings, run: seq<System>, actions: seq<Action>, k: nat)
    requires IsRun(c, run, actions) && k < |run|
    ensures LockInv(run[k])
  {
    hide Next;
    if k > 0 {
      RunKeepsLocks(c, run, actions, k - 1);
      LockKept(c, run[k - 1], actions[k - 1]);
    }
  }

  lemma {:induction false} RunKeeps(c: Settings, run: seq<System>, actions: seq<Action>, k: nat)
    requires c.limit >= 0 && IsRun(c, run, actions) && k < |run|
    ensures Inv(c, run[k])
  {
    hide Next;
    if k > 0 {
      RunKeeps(c, run, actions, k - 1);
      var a := actions[k - 1];
      if a.Commit? { CommitKeeps(c, run[k - 1], a); }
      else if a.Load? { LoadKeeps(c, run[k - 1], a); }
      else if a.Clear? { ClearKeeps(c, run[k - 1], a); }
      else { OthersKeep(c, run[k - 1], a); }
    }
  }

  /**
   * As long as no turn of this session has undone a clear, what its next load returns is the end of everything
   * committed to that session since it was last cleared or found expired, if the last of these turns is less
   * than the time to live ago, and nothing after that: no turn is lost, repeated or leaked to another session.
   * After an undone clear the same holds again once the session has been cleared or found expired.
   */
  lemma SessionsSerialise(c: Settings, run: seq<System>, actions: seq<Action>, k: nat, key: Key)
    requires c.limit >= 0 && IsRun(c, run, actions) && k < |run| && key !in run[k].undone
    ensures var written := LastWrite(run[k].log, key);
      Loaded(run[k].items, key, run[k].now).1 == Memory(key.0, key.1,
        if written.Some? && run[k].now < written.value + c.ttl then Truncated(Since(run[k].log, key), c.limit) else [])
  {
    RunKeeps(c, run, actions, k);
  }

  /** So a load returns the newest messages committed since the last reset, as many as the limit allows. */
  lemma LoadsTheNewest(c: Settings, run: seq<System>, actions: seq<Action>, k: nat, key: Key)
    requires c.limit >= 1 && IsRun(c, run, actions) && k < |run| && key !in run[k].undone
    ensures var written := LastWrite(run[k].log, key);
      var committed :=
        if written.Some? && run[k].now < written.value + c.ttl then Since(run[k].log, key) else [];
      IsLast(committed, c.limit, Loaded(run[k].items, key, run[k].now).1.messages)
  {
    SessionsSerialise(c, run, actions, k, key);
    TruncatedIs(Since(run[k].log, key), c.limit);
    hide Truncated, Since, LastWrite, Loaded;
    assert [] == [] + Loaded(run[k].items, key, run[k].now).1.messages ==>
        IsLast([], c.limit, Loaded(run[k].items, key, run[k].now).1.messages);
  }

  /** After every turn the newest two messages of its session are its own, whatever else happened to it. */
  lemma TurnIsKept(c: Settings, run: seq<System>, actions: seq<Action>, k: nat)
    requires c.limit == 0 || c.limit >= 2
    requires IsRun(c, run, actions) && k < |actions| && actions[k].Commit?
    ensures var key, a := run[k].turns[actions[k].turn].key, actions[k];
      && key in run[k + 1].items
      && var m := run[k + 1].items[key].memory.messages;
      |m| >= 2 && m[|m| - 2..] == [Message("user", a.question), Message("assistant", a.answer)]
  {
    RunKeeps(c, run, actions, k);
    var s, a := run[k], actions[k];
    CommitStores(c, s, a);
    assert LoadedOk(c, s, a.turn);
    var pair := [Message("user", a.question), Message("assistant", a.answer)];
    var all := s.turns[a.turn].pc.memory.messages + pair;
    assert run[k + 1].items[s.turns[a.turn].key].memory.messages == Truncated(all, c.limit);
    TruncatedIs(all, c.limit);
    hide Truncated, Inv, IsRun;
    NewestTwo(s.turns[a.turn].pc.memory.messages, pair, c.limit);
  }

  lemma NewestTwo(earlier: seq<Message>, pair: seq<Message>, limit: nat)
    requires |pair| == 2 && (limit == 0 || limit >= 2)
    ensures var m := Truncated(earlier + pair, limit); |m| >= 2 && m[|m| - 2..] == pair
  {
    var all := earlier + pair;
    TruncatedIs(all, limit);
    hide Truncated;
    var m := Truncated(all, limit);
    if limit >= 2 {
      var dropped :| all == dropped + m;
      assert m[|m| - 2..] == all[|all| - 2..];
    }
  }

  /** Two turns never hold the lock of one session, so each works on what the one before it left. */
  lemma OneTurnPerSession(c: Settings, run: seq<System>, actions: seq<Action>, k: nat, t: nat, u: nat)
    requires IsRun(c, run, actions) && k < |run|
    requires t in run[k].turns && u in run[k].turns && HasLock(run[k].turns[t].pc) && HasLock(run[k].turns[u].pc)
    requires run[k].turns[t].key == run[k].turns[u].key
    ensures t == u
  {
    RunKeepsLocks(c, run, actions, k);
  }

  /**
   * A turn stores something else than the log says exactly if it undoes a clear: its session was cleared after
   * it loaded messages from it, and the limit does not keep only the turn's own messages.
   */
  lemma ClearIsUndoneIff(c: Settings, run: seq<System>, actions: seq<Action>, k: nat)
    requires c.limit >= 0 && IsRun(c, run, actions) && k < |actions| && actions[k].Commit?
    requires run[k].turns[actions[k].turn].key !in run[k].undone
    ensures var key := run[k].turns[actions[k].turn].key;
      && key in run[k + 1].items
      && (run[k + 1].items[key].memory == Expected(c, run[k + 1].log, key) <==> !UndoesClear(c, run[k], actions[k]))
  {
    hide UndoesClear;
    RunKeeps(c, run, actions, k);
    CommitStores(c, run[k], actions[k]);
  }

  /** The action clears the session of a turn that has loaded it and not saved it yet. */
  predicate ClearsUnder(s: System, a: Action, t: nat) {
    a.Clear? && t in s.turns && s.turns[t].key == a.key && s.turns[t].pc.Holding?
  }

  /** A turn is stale exactly if its session was cleared at some time between its load and its save. */
  lemma {:induction false} StaleIff(c: Settings, run: seq<System>, actions: seq<Action>, k: nat, t: nat)
    requires IsRun(c, run, actions) && k < |run|
    ensures t in run[k].stale <==> exists n: nat :: n < k && ClearsUnder(run[n], actions[n], t)
  {
    if k > 0 {
      StaleIff(c, run, actions, k - 1, t);
      assert Enabled(run[k - 1], actions[k - 1]) && run[k] == Next(c, run[k - 1], actions[k - 1]);
      hide Turned, Saved, Loaded;
      assert t in run[k].stale <==> t in run[k - 1].stale || ClearsUnder(run[k - 1], actions[k - 1], t);
    }
  }
  /** The action is a commit to this session that undoes a clear. */
  predicate UndoesIn(c: Settings, s: System, a: Action, key: Key) {
    UndoesClear(c, s, a) && s.turns[a.turn].key == key
  }

  /** The action clears the session, or finds it missing or expired. */
  predicate ResetsIn(s: System, a: Action, key: Key) {
    (a.Clear? && a.key == key)
    || (a.Load? && a.turn in s.turns && s.turns[a.turn].key == key && !(key in s.items && s.items[key].expires > s.now))
  }

  /** A session is undone exactly if a turn of it has undone a clear and nothing has reset it since. */
  lemma {:induction false} UndoneIff(c: Settings, run: seq<System>, actions: seq<Action>, k: nat, key: Key)
    requires IsRun(c, run, actions) && k < |run|
    ensures key in run[k].undone <==> exists n: nat ::
      n < k && UndoesIn(c, run[n], actions[n], key) && forall m :: n < m < k ==> !ResetsIn(run[m], actions[m], key)
  {
    if k > 0 {
      UndoneIff(c, run, actions, k - 1, key);
      UndoneNext(c, run[k - 1], actions[k - 1], key);
      hide Next, UndoesIn, ResetsIn;
    }
  }

  lemma UndoneNext(c: Settings, s: System, a: Action, key: Key)
    requires Enabled(s, a)
    ensures key in Next(c, s, a).undone <==> UndoesIn(c, s, a, key) || (key in s.undone && !ResetsIn(s, a, key))
  {
    hide Turned, Saved, Loaded;
  }
}
