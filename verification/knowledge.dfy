/** The knowledge repository and the ingestion policy that guards it. */
module Knowledge {
  import opened Text
  import opened Domain

  /** The text predicates and transformations whose details do not matter here. */
  datatype Policy = Policy(
    injection: string -> bool,      // detect_prompt_injection
    redact: string -> string,       // redact_sensitive_text
    foldTitle: string -> string,    // casefold, then drop white space
    digest: string -> string,       // hex SHA-256
    lower: char -> char,
    listing: bool)                  // the repository offers list_documents

  /** The documents stored under one id. */
  function Under(docs: seq<Document>, id: string): (r: seq<Document>)
    ensures forall d :: d in r <==> d in docs && d.id == id
  {
    if docs == [] then []
    else if docs[0].id == id then [docs[0]] + Under(docs[1..], id)
    else Under(docs[1..], id)
  }

  function Without(docs: seq<Document>, id: string): (r: seq<Document>)
    ensures forall d :: d in r <==> d in docs && d.id != id
  {
    if docs == [] then []
    else if docs[0].id != id then [docs[0]] + Without(docs[1..], id)
    else Without(docs[1..], id)
  }

  function InDomain(docs: seq<Document>, domain: string): seq<Document> {
    if docs == [] then []
    else if docs[0].domain == domain then [docs[0]] + InDomain(docs[1..], domain)
    else InDomain(docs[1..], domain)
  }

  /** `list_documents`: no domain, or the empty one, lists everything. */
  function Listed(docs: seq<Document>, domain: Option<string>): seq<Document> {
    if domain.None? || domain.value == "" then docs else InDomain(docs, domain.value)
  }

  lemma {:induction false} ListedMember(docs: seq<Document>, domain: Option<string>, d: Document)
    ensures d in Listed(docs, domain) <==> d in docs && (domain.None? || domain.value == "" || d.domain == domain.value)
  {
    if domain.Some? && domain.value != "" && docs != [] {
      ListedMember(docs[1..], domain, d);
    }
  }

  function Upserted(docs: seq<Document>, d: Document): seq<Document> {
    Without(docs, d.id) + [d]
  }

  lemma {:induction false} UnderConcat(a: seq<Document>, b: seq<Document>, id: string)
    ensures Under(a + b, id) == Under(a, id) + Under(b, id)
  {
    if a == [] {
      assert a + b == b;
    } else {
      UnderConcat(a[1..], b, id);
      assert (a + b)[1..] == a[1..] + b;
    }
  }

  /** Removing an identifier keeps all other documents in their order. */
  lemma {:induction false} WithoutInOrder(docs: seq<Document>, last: Document, id: string)
    ensures Without(docs + [last], id) == Without(docs, id) + if last.id == id then [] else [last]
    ensures Without([], id) == []
  {
    if docs == [] {
      assert docs + [last] == [last] && [last][1..] == [];
    } else {
      WithoutInOrder(docs[1..], last, id);
      assert (docs + [last])[1..] == docs[1..] + [last];
    }
  }

  lemma {:induction false} UnderWithout(docs: seq<Document>, removed: string, id: string)
    ensures Under(Without(docs, removed), id) == if id == removed then [] else Under(docs, id)
  {
    if docs != [] {
      UnderWithout(docs[1..], removed, id);
    }
  }

  /** After an upsert exactly the new document is stored under its id, and no other id is touched. */
  lemma UnderUpsert(docs: seq<Document>, d: Document, id: string)
    ensures Under(Upserted(docs, d), id) == if id == d.id then [d] else Under(docs, id)
  {
    UnderConcat(Without(docs, d.id), [d], id);
    UnderWithout(docs, d.id, id);
  }

  class MockKnowledgeAdapter {
    var documents: seq<Document>

    method ListDocuments(domain: Option<string>) returns (r: seq<Document>)
      ensures r == Listed(documents, domain)
    {
      r := if domain.None? || domain.value == "" then documents else InDomain(documents, domain.value);
    }

    method Upsert(d: Document)
      modifies this
      ensures documents == Upserted(old(documents), d)
      ensures documents != [] && documents[|documents| - 1] == d
    {
      documents := Without(documents, d.id);
      documents := documents + [d];
    }
  }

  // ---- scan_knowledge_document and seal_knowledge_document ----

  function PolicyText(d: Document): string {
    Join("\n", [d.title, d.content] + d.keywords)
  }

  // What the policy makes of a document is stated in terms of its parts.

  /** The words occur in the title, the content or a keyword. */
  predicate HasWords(d: Document, words: string) {
    Contains(d.title, words) || Contains(d.content, words) || exists k :: k in d.keywords && Contains(k, words)
  }

  /** The policy objects to every text with these words: it reads them as an injection, or redacts them. */
  ghost predicate Forbids(p: Policy, words: string) {
    || (forall text :: Contains(text, words) ==> p.injection(text))
    || (forall text :: Contains(text, words) ==> p.redact(text) != text)
  }

  /** The text, and each of the parts on a line of its own. */
  function WithLines(text: string, parts: seq<string>): string {
    if parts == [] then text
    else WithLines(text, parts[..|parts| - 1]) + "\n" + parts[|parts| - 1]
  }

  lemma {:induction false} LinesOf(d: Document, n: nat)
    requires n <= |d.keywords|
    ensures Join("\n", [d.title, d.content] + d.keywords[..n])
      == WithLines(d.title + "\n" + d.content, d.keywords[..n])
  {
    if n == 0 {
      JoinSnoc("\n", [d.title], d.content);
      assert [d.title, d.content] + [] == [d.title] + [d.content];
    } else {
      LinesOf(d, n - 1);
      var earlier := d.keywords[..n - 1];
      assert d.keywords[..n] == earlier + [d.keywords[n - 1]] && d.keywords[..n][..n - 1] == earlier;
      Rebracket([d.title, d.content], earlier, [d.keywords[n - 1]]);
      JoinSnoc("\n", [d.title, d.content] + earlier, d.keywords[n - 1]);
    }
  }

  lemma PolicyTextIs(d: Document)
    ensures PolicyText(d) == WithLines(d.title + "\n" + d.content, d.keywords)
  {
    LinesOf(d, |d.keywords|);
    assert d.keywords[..|d.keywords|] == d.keywords;
  }

  /** Forbidden words are seen wherever they stand. */
  lemma WordsAreSeen(d: Document, words: string)
    requires HasWords(d, words)
    ensures Contains(PolicyText(d), words)
  {
    var parts := [d.title, d.content] + d.keywords;
    if Contains(d.title, words) {
      JoinHas("\n", parts, 0, words);
    } else if Contains(d.content, words) {
      JoinHas("\n", parts, 1, words);
    } else {
      var k :| 0 <= k < |d.keywords| && Contains(d.keywords[k], words);
      assert parts[k + 2] == d.keywords[k];
      JoinHas("\n", parts, k + 2, words);
    }
  }

  lemma ForbiddenIsBlocked(p: Policy, d: Document, words: string)
    requires HasWords(d, words) && Forbids(p, words)
    ensures Blocked(p, d)
  {
    WordsAreSeen(d, words);
  }

  /** The document is refused: override language, customer data, or not evidence only. */
  predicate Blocked(p: Policy, d: Document) {
    || p.injection(PolicyText(d))
    || p.redact(PolicyText(d)) != PolicyText(d)
    || !d.evidenceOnly
  }

  predicate Conflicts(p: Policy, d: Document, item: Document) {
    && item.id != d.id
    && item.tenantId == d.tenantId
    && (|| p.foldTitle(item.title) == p.foldTitle(d.title)
        || |(set k | k in item.keywords) * (set k | k in d.keywords)| >= 2)
    && item.content != d.content
  }

  function ConflictFlag(item: Document): string {
    "potential_conflict:" + item.id + ":" + item.version
  }

  predicate LexLess(a: string, b: string) {
    if a == "" then b != ""
    else if b == "" then false
    else a[0] < b[0] || (a[0] == b[0] && LexLess(a[1..], b[1..]))
  }

  predicate StrictlySorted(s: seq<string>) {
    forall i :: 0 < i < |s| ==> LexLess(s[i - 1], s[i])
  }

  lemma LexTotal(a: string, b: string)
    ensures a == b || LexLess(a, b) || LexLess(b, a)
  {
    if a != "" && b != "" {
      LexTotal(a[1..], b[1..]);
      if a[0] == b[0] && a[1..] == b[1..] {
        assert a == [a[0]] + a[1..] == b;
      }
    }
  }

  lemma LexStrict(a: string, b: string, c: string)
    ensures !LexLess(a, a)
    ensures LexLess(a, b) && LexLess(b, c) ==> LexLess(a, c)
  {
    if a != "" {
      LexStrict(a[1..], if b == "" then b else b[1..], if c == "" then c else c[1..]);
    }
  }

  lemma {:induction false} HeadIsLeast(s: seq<string>, i: nat)
    requires StrictlySorted(s) && 0 < i < |s|
    ensures LexLess(s[0], s[i])
  {
    if i > 1 {
      HeadIsLeast(s, i - 1);
      LexStrict(s[0], s[i - 1], s[i]);
    }
  }

  /** In a strictly sorted list the first element is below all others, and is not repeated. */
  lemma HeadIsApart(s: seq<string>)
    requires StrictlySorted(s) && s != []
    ensures StrictlySorted(s[1..]) && s[0] !in s[1..]
    ensures forall y :: y in s && y != s[0] ==> LexLess(s[0], y)
  {
    LexStrict(s[0], s[0], s[0]);
    forall i | 0 < i < |s| ensures LexLess(s[0], s[i]) { HeadIsLeast(s, i); }
  }

  /** A strictly sorted list is determined by its elements. */
  lemma {:induction false} SortedUnique(a: seq<string>, b: seq<string>)
    requires StrictlySorted(a) && StrictlySorted(b)
    requires forall y :: y in a <==> y in b
    ensures a == b
  {
    assert b != [] ==> b[0] in b && b[0] in a;
    if a != [] {
      assert a[0] in b;
      HeadIsApart(a);
      HeadIsApart(b);
      if a[0] != b[0] { LexStrict(a[0], b[0], a[0]); }
      assert a == [a[0]] + a[1..] && b == [b[0]] + b[1..];
      forall y ensures y in a[1..] <==> y in b[1..] {
        assert y in a <==> y == a[0] || y in a[1..];
        assert y in b <==> y == b[0] || y in b[1..];
      }
      SortedUnique(a[1..], b[1..]);
    }
  }

  /** Adds one flag to a strictly sorted list. */
  function Insert(x: string, s: seq<string>): (r: seq<string>)
    requires StrictlySorted(s)
    ensures StrictlySorted(r)
    ensures forall y :: y in r <==> y in s || y == x
    ensures r != [] && (r[0] == x || (s != [] && r[0] == s[0]))
  {
    if s == [] then [x]
    else if x == s[0] then s
    else if LexLess(x, s[0]) then [x] + s
    else
      LexTotal(x, s[0]);
      assert StrictlySorted(s[1..]);
      [s[0]] + Insert(x, s[1..])
  }

  /** `sorted(set(values))`. */
  function SortedSet(values: seq<string>): (r: seq<string>)
    ensures StrictlySorted(r)
    ensures forall f :: f in r <==> f in values
  {
    if values == [] then []
    else
      assert values == values[..|values| - 1] + [values[|values| - 1]];
      Insert(values[|values| - 1], SortedSet(values[..|values| - 1]))
  }

  /** The verdict on a document given what is already published: refused, or its risk flags. */
  function Scan(p: Policy, d: Document, existing: seq<Document>): Result<seq<string>, ()> {
    if Blocked(p, d) then Err(()) else Ok(RiskFlags(p, d, existing))
  }

  /** The flags of all conflicting documents, sorted and without duplicates. */
  function RiskFlags(p: Policy, d: Document, existing: seq<Document>): (r: seq<string>)
    ensures StrictlySorted(r)
    ensures forall f :: f in r <==> exists item :: item in existing && Conflicts(p, d, item) && f == ConflictFlag(item)
  {
    if existing == [] then []
    else
      var n := |existing| - 1;
      var earlier := RiskFlags(p, d, existing[..n]);
      assert existing == existing[..n] + [existing[n]];
      if Conflicts(p, d, existing[n]) then Insert(ConflictFlag(existing[n]), earlier) else earlier
  }

  /** A document is not compared with what is stored under its own identifier: upserting it first changes no flag. */
  lemma OwnDocumentIsIgnored(p: Policy, d: Document, docs: seq<Document>, own: Document, domain: Option<string>)
    requires own.id == d.id
    ensures RiskFlags(p, d, Listed(Upserted(docs, own), domain)) == RiskFlags(p, d, Listed(docs, domain))
  {
    var a, b := Listed(Upserted(docs, own), domain), Listed(docs, domain);
    forall item | Conflicts(p, d, item) ensures item in a <==> item in b {
      ListedMember(Upserted(docs, own), domain, item);
      ListedMember(docs, domain, item);
    }
    SortedUnique(RiskFlags(p, d, a), RiskFlags(p, d, b));
  }

  /** The later of two documents under one identifier is all that is left. */
  lemma UpsertTwice(docs: seq<Document>, a: Document, b: Document)
    requires a.id == b.id
    ensures Upserted(Upserted(docs, a), b) == Upserted(docs, b)
  {
    WithoutTwice(docs, a);
  }

  lemma {:induction false} WithoutTwice(docs: seq<Document>, a: Document)
    ensures Without(Without(docs, a.id) + [a], a.id) == Without(docs, a.id)
  {
    if docs != [] {
      WithoutTwice(docs[1..], a);
      if docs[0].id != a.id {
        FirstApart(Without(docs, a.id), [a]);
      }
    }
  }

  /** What a stored document has to share with a new one, and not to share, for the two to conflict. */
  ghost predicate Contradicts(p: Policy, d: Document, item: Document) {
    && item.id != d.id && item.tenantId == d.tenantId && item.content != d.content
    && (|| p.foldTitle(item.title) == p.foldTitle(d.title)
        || exists a, b :: a != b && a in d.keywords && b in d.keywords && a in item.keywords && b in item.keywords)
  }

  lemma PairOf(s: set<string>) returns (a: string, b: string)
    requires |s| >= 2
    ensures a != b && a in s && b in s
  {
    a :| a in s;
    assert s == (s - {a}) + {a};
    b :| b in s - {a};
  }

  lemma AtLeastTwo(s: set<string>, a: string, b: string)
    requires a != b && a in s && b in s
    ensures |s| >= 2
  {
    assert s == (s - {a}) + {a} && b in s - {a};
  }

  lemma ConflictsIff(p: Policy, d: Document, item: Document)
    ensures Conflicts(p, d, item) <==> Contradicts(p, d, item)
  {
    var shared := (set k | k in item.keywords) * (set k | k in d.keywords);
    if |shared| >= 2 { var a, b := PairOf(shared); }
    if a, b :| a != b && a in d.keywords && b in d.keywords && a in item.keywords && b in item.keywords {
      AtLeastTwo(shared, a, b);
    }
  }

  /** The flags name, by identifier and version, exactly the stored documents that contradict the new one. */
  lemma FlagsNameContradictions(p: Policy, d: Document, existing: seq<Document>, flag: string)
    ensures flag in RiskFlags(p, d, existing) <==> exists item ::
      item in existing && Contradicts(p, d, item) && flag == "potential_conflict:" + item.id + ":" + item.version
  {
    hide Contradicts, Conflicts;
    forall item ensures Conflicts(p, d, item) <==> Contradicts(p, d, item) { ConflictsIff(p, d, item); }
  }

  /**
   * Refused exactly if the title, content and keywords, line by line, are an injection or are redacted, or
   * the document is not evidence only; so whatever has forbidden words in any of its parts is refused.
   */
  method ScanKnowledgeDocument(p: Policy, d: Document, existing: seq<Document>) returns (r: Result<seq<string>, ()>)
    ensures r == Scan(p, d, existing)
    ensures var text := WithLines(d.title + "\n" + d.content, d.keywords);
      r.Ok? <==> !p.injection(text) && p.redact(text) == text && d.evidenceOnly
    ensures (exists words :: HasWords(d, words) && Forbids(p, words)) ==> r.Err?
    ensures r.Ok? ==> StrictlySorted(r.value) && forall flag :: flag in r.value <==> exists item ::
      item in existing && Contradicts(p, d, item) && flag == "potential_conflict:" + item.id + ":" + item.version
  {
    hide Contradicts, HasWords, Forbids;
    PolicyTextIs(d);
    if words :| HasWords(d, words) && Forbids(p, words) { ForbiddenIsBlocked(p, d, words); }
    forall flag { FlagsNameContradictions(p, d, existing, flag); }
    var blocking: seq<string> := [];
    if p.injection(PolicyText(d)) { blocking := blocking + ["prompt_injection"]; }
    if p.redact(PolicyText(d)) != PolicyText(d) { blocking := blocking + ["sensitive_information"]; }
    if !d.evidenceOnly { blocking := blocking + ["executable_knowledge_not_allowed"]; }
    if blocking != [] { return Err(()); }
    var risks: seq<string> := [];
    for i := 0 to |existing|
      invariant SortedSet(risks) == RiskFlags(p, d, existing[..i])
    {
      assert existing[..i + 1][..i] == existing[..i];
      if Conflicts(p, d, existing[i]) {
        var flag := ConflictFlag(existing[i]);
        assert (risks + [flag])[..|risks|] == risks;
        risks := risks + [flag];
      }
    }
    assert existing[..|existing|] == existing;
    r := Ok(SortedSet(risks));
  }

  function Seal(p: Policy, d: Document): Document {
    var nul := "\0";
    var text := d.id + nul + d.tenantId + nul + d.domain + nul + d.title + nul
      + d.content + nul + d.version + nul + d.source;
    d.(contentHash := p.digest(text), evidenceOnly := true)
  }

  function SealedFields(d: Document): seq<string> {
    [d.id, d.tenantId, d.domain, d.title, d.content, d.version, d.source]
  }

  lemma SealText(p: Policy, d: Document)
    ensures Seal(p, d) == d.(contentHash := p.digest(Join("\0", SealedFields(d))), evidenceOnly := true)
  {
    var f := SealedFields(d);
    forall n | 0 < n < 7 ensures Join("\0", f[..n + 1]) == Join("\0", f[..n]) + "\0" + f[n] {
      JoinSnoc("\0", f[..n], f[n]);
      assert f[..n + 1] == f[..n] + [f[n]];
    }
    assert Join("\0", f[..1]) == f[0];
    hide Join;
    assert Join("\0", f[..2]) == Join("\0", f[..1]) + "\0" + f[1];
    assert Join("\0", f[..3]) == Join("\0", f[..2]) + "\0" + f[2];
    assert Join("\0", f[..4]) == Join("\0", f[..3]) + "\0" + f[3];
    assert Join("\0", f[..5]) == Join("\0", f[..4]) + "\0" + f[4];
    assert Join("\0", f[..6]) == Join("\0", f[..5]) + "\0" + f[5];
    assert f[..7] == f && Join("\0", f[..7]) == Join("\0", f[..6]) + "\0" + f[6];
  }

  lemma SplitAtNul(a: string, x: string, b: string, y: string)
    requires '\0' !in a && '\0' !in b && a + "\0" + x == b + "\0" + y
    ensures a == b && x == y
  {
    var s, t := a + "\0" + x, b + "\0" + y;
    assert s[|a|] == '\0' && t[|b|] == '\0';
    assert forall i :: 0 <= i < |a| ==> s[i] == a[i] && a[i] in a;
    assert forall i :: 0 <= i < |b| ==> t[i] == b[i] && b[i] in b;
    assert a == s[..|a|] && b == t[..|b|];
    assert x == s[|a| + 1..] && y == t[|b| + 1..];
  }

  /** Texts without the separator are determined by their join. */
  lemma {:induction false} JoinInjective(a: seq<string>, b: seq<string>)
    requires |a| == |b| && (forall x :: x in a || x in b ==> '\0' !in x)
    requires Join("\0", a) == Join("\0", b)
    ensures a == b
  {
    if |a| >= 1 {
      assert a[0] in a && b[0] in b;
      if |a| > 1 {
        SplitAtNul(a[0], Join("\0", a[1..]), b[0], Join("\0", b[1..]));
        JoinInjective(a[1..], b[1..]);
      }
      assert a == [a[0]] + a[1..] && b == [b[0]] + b[1..];
    }
  }

  /**
   * As far as the digest tells texts apart, the seal tells documents apart: two documents have the same hash
   * exactly if they agree in identifier, tenant, domain, title, content, version and source.
   */
  lemma SealDetectsChange(p: Policy, a: Document, b: Document)
    requires forall x :: x in SealedFields(a) || x in SealedFields(b) ==> '\0' !in x
    requires var x, y := Join("\0", SealedFields(a)), Join("\0", SealedFields(b)); p.digest(x) == p.digest(y) ==> x == y
    ensures Seal(p, a).contentHash == Seal(p, b).contentHash <==>
      && a.id == b.id && a.tenantId == b.tenantId && a.domain == b.domain && a.title == b.title
      && a.content == b.content && a.version == b.version && a.source == b.source
  {
    SealText(p, a);
    SealText(p, b);
    hide Join;
    if Seal(p, a).contentHash == Seal(p, b).contentHash {
      JoinInjective(SealedFields(a), SealedFields(b));
      assert forall n :: 0 <= n < 7 ==> SealedFields(a)[n] == SealedFields(b)[n];
    }
  }
}
