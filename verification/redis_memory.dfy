/** `RedisMemoryStore`: session memory under hashed, length-prefixed keys in a shared key space. */
module RedisMemory {
  import opened Text
  import opened Sessions

  /** Two parts, each preceded by its decimal length and a colon. */
  function PreImage(scope: Key): string {
    Decimal(|scope.0|) + ":" + scope.0 + Decimal(|scope.1|) + ":" + scope.1
  }

  predicate Digits(s: string) { forall i :: 0 <= i < |s| ==> IsAsciiDigit(s[i]) }

  /** A digit string ends at the first colon. */
  lemma FirstColon(a: string, b: string, x: string, y: string)
    requires Digits(a) && Digits(b) && a + ":" + x == b + ":" + y
    ensures a == b && x == y
  {
    var s, t := a + ":" + x, b + ":" + y;
    assert s[|a|] == ':' && t[|b|] == ':';
    assert forall i :: 0 <= i < |a| ==> s[i] == a[i];
    assert forall i :: 0 <= i < |b| ==> t[i] == b[i];
    assert a == s[..|a|] && b == t[..|b|];
    assert x == s[|a| + 1..] && y == t[|b| + 1..];
  }

  lemma FirstPart(x: string, y: string, restX: string, restY: string)
    requires Decimal(|x|) + ":" + (x + restX) == Decimal(|y|) + ":" + (y + restY)
    ensures x == y && restX == restY
  {
    FirstColon(Decimal(|x|), Decimal(|y|), x + restX, y + restY);
    DecimalInjective(|x|, |y|);
    hide Decimal;
    assert x == (x + restX)[..|x|] && y == (y + restY)[..|y|];
    assert restX == (x + restX)[|x|..] && restY == (y + restY)[|y|..];
  }

  /** No two sessions share a pre-image, whatever characters their names contain. */
  lemma PreImageInjective(a: Key, b: Key)
    requires PreImage(a) == PreImage(b)
    ensures a == b
  {
    hide *;
    PreImageParts(a);
    PreImageParts(b);
    FirstPart(a.0, b.0, Decimal(|a.1|) + ":" + (a.1 + ""), Decimal(|b.1|) + ":" + (b.1 + ""));
    FirstPart(a.1, b.1, "", "");
  }

  lemma PreImageParts(a: Key)
    ensures PreImage(a) == Decimal(|a.0|) + ":" + (a.0 + (Decimal(|a.1|) + ":" + (a.1 + "")))
  {
    hide Decimal;
  }

  /** Leaving out the lengths would not do: the names alone run together. */
  lemma NamesAloneCollide()
    ensures "ab" + "c" == "a" + "bc" && PreImage(("ab", "c")) != PreImage(("a", "bc"))
  {
    if PreImage(("ab", "c")) == PreImage(("a", "bc")) {
      PreImageInjective(("ab", "c"), ("a", "bc"));
    }
  }

  /** The digest is a string without colons; `prefix` is the store's own. */
  datatype Keys = Keys(prefix: string, digest: string -> string)

  function DataKey(k: Keys, scope: Key): string {
    k.prefix + ":memory:" + k.digest(PreImage(scope))
  }

  function LockKey(k: Keys, scope: Key): string {
    DataKey(k, scope) + ":lock"
  }

  /** The digest is hexadecimal, and does not collide on the sessions in use. */
  ghost predicate Sound(k: Keys, live: set<Key>) {
    && (forall scope: Key :: ':' !in k.digest(PreImage(scope)))
    && forall a, b :: a in live && b in live && k.digest(PreImage(a)) == k.digest(PreImage(b)) ==>
          PreImage(a) == PreImage(b)
  }

  lemma DataKeyInjective(k: Keys, live: set<Key>, a: Key, b: Key)
    requires Sound(k, live) && a in live && b in live && DataKey(k, a) == DataKey(k, b)
    ensures a == b
  {
    var start := k.prefix + ":memory:";
    assert DataKey(k, a)[|start|..] == k.digest(PreImage(a));
    assert DataKey(k, b)[|start|..] == k.digest(PreImage(b));
    PreImageInjective(a, b);
  }

  lemma OnlyKey(k: Keys, live: set<Key>, scope: Key)
    requires Sound(k, live) && scope in live
    ensures forall other :: other in live && DataKey(k, other) == DataKey(k, scope) ==> other == scope
  {
    forall other | other in live && DataKey(k, other) == DataKey(k, scope) ensures other == scope {
      DataKeyInjective(k, live, other, scope);
    }
  }

  /** A lock is never stored where the memory of some session is. */
  lemma LocksAreApart(k: Keys, live: set<Key>, a: Key, b: Key)
    requires Sound(k, live)
    ensures LockKey(k, a) != DataKey(k, b)
  {
    var x, y := k.digest(PreImage(a)), k.digest(PreImage(b));
    assert (x + ":lock")[|x|] == ':';
    assert ':' in x + ":lock" && ':' !in y;
    var start := k.prefix + ":memory:";
    assert LockKey(k, a) == start + (x + ":lock") && DataKey(k, b) == start + y;
    SamePrefix(start, x + ":lock", y);
  }

  lemma SamePrefix(start: string, x: string, y: string)
    ensures start + x == start + y <==> x == y
  {
    assert (start + x)[|start|..] == x && (start + y)[|start|..] == y;
  }

  class RedisMemoryStore {
    const keys: Keys
    const ttl: real
    var data: map<string, Item>

    constructor (keys: Keys, ttl: real)
      ensures this.keys == keys && this.ttl == ttl && data == map[]
    {
      this.keys, this.ttl, data := keys, ttl, map[];
    }

    /** What the store holds, session by session. */
    ghost function View(live: set<Key>): Items
      reads this
    {
      map scope | scope in live && DataKey(keys, scope) in data :: data[DataKey(keys, scope)]
    }

    /** Every session's entry carries its own names. */
    ghost predicate Valid(live: set<Key>)
      reads this
    {
      && Sound(keys, live)
      && forall scope :: scope in View(live) ==>
            View(live)[scope].memory.userId == scope.0 && View(live)[scope].memory.sessionId == scope.1
    }

    method Save(m: Memory, now: real, ghost live: set<Key>)
      requires Valid(live) && (m.userId, m.sessionId) in live
      modifies this`data
      ensures Valid(live) && View(live) == Saved(old(View(live)), ttl, m, now)
    {
      hide DataKey, Sound;
      var scope := (m.userId, m.sessionId);
      data := data[DataKey(keys, scope) := Item(now + ttl, m)];
      OnlyKey(keys, live, scope);
    }

    /** `None` is the scope-mismatch error: it never arises. A hit starts the time to live afresh. */
    method Get(scope: Key, now: real, ghost live: set<Key>) returns (r: Option<Memory>)
      requires Valid(live) && scope in live
      modifies this`data
      ensures Valid(live)
      ensures r == Some(Loaded(old(View(live)), scope, now).1)
      ensures View(live) == var (items, m) := Loaded(old(View(live)), scope, now);
        if scope in items then items[scope := Item(now + ttl, m)] else items
    {
      hide DataKey, Sound;
      OnlyKey(keys, live, scope);
      var key := DataKey(keys, scope);
      assert key in data ==> scope in View(live);
      if key !in data || data[key].expires <= now {
        data := data - {key};
        return Some(Memory(scope.0, scope.1, []));
      }
      var memory := data[key].memory;
      data := data[key := Item(now + ttl, memory)];
      if memory.userId != scope.0 || memory.sessionId != scope.1 { return None; }
      r := Some(memory);
    }

    method Clear(scope: Key, ghost live: set<Key>)
      requires Valid(live) && scope in live
      modifies this`data
      ensures Valid(live) && View(live) == old(View(live)) - {scope}
    {
      hide DataKey, Sound;
      data := data - {DataKey(keys, scope)};
      OnlyKey(keys, live, scope);
    }
  }
}
