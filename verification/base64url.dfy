/** Unpadded base64url (RFC 4648, sections 3.2 and 5). */
module Base64Url {
  import opened Text

  type Byte = x: int | 0 <= x < 256
  type Sextet = x: int | 0 <= x < 64

  function Symbol(v: Sextet): char {
    if v < 26 then 'A' + v as char
    else if v < 52 then 'a' + (v - 26) as char
    else if v < 62 then '0' + (v - 52) as char
    else if v == 62 then '-'
    else '_'
  }

  predicate IsSymbol(c: char) {
    'A' <= c <= 'Z' || 'a' <= c <= 'z' || '0' <= c <= '9' || c == '-' || c == '_'
  }

  function ValueOf(c: char): Sextet
    requires IsSymbol(c)
  {
    if 'A' <= c <= 'Z' then c as int - 65
    else if 'a' <= c <= 'z' then c as int - 97 + 26
    else if '0' <= c <= '9' then c as int - 48 + 52
    else if c == '-' then 62
    else 63
  }

  lemma SymbolRoundTrip(v: Sextet)
    ensures IsSymbol(Symbol(v)) && ValueOf(Symbol(v)) == v
  {
  }

  // The four symbols of three bytes.
  function S0(a: Byte): Sextet { a / 4 }
  function S1(a: Byte, b: Byte): Sextet { (a % 4) * 16 + b / 16 }
  function S2(b: Byte, c: Byte): Sextet { (b % 16) * 4 + c / 64 }
  function S3(c: Byte): Sextet { c % 64 }

  /** `base64.urlsafe_b64encode`: every three bytes as four symbols, the last group padded with `=`. */
  function Padded(bytes: seq<Byte>): string {
    if bytes == [] then ""
    else if |bytes| == 1 then [Symbol(S0(bytes[0])), Symbol(S1(bytes[0], 0)), '=', '=']
    else if |bytes| == 2 then
      [Symbol(S0(bytes[0])), Symbol(S1(bytes[0], bytes[1])), Symbol(S2(bytes[1], 0)), '=']
    else
      [Symbol(S0(bytes[0])), Symbol(S1(bytes[0], bytes[1])), Symbol(S2(bytes[1], bytes[2])), Symbol(S3(bytes[2]))]
      + Padded(bytes[3..])
  }

  predicate IsPad(c: char) { c == '=' }

  function Encode(bytes: seq<Byte>): string {
    StripRight(Padded(bytes), IsPad)
  }

  predicate AllSymbols(s: string) { forall i :: 0 <= i < |s| ==> IsSymbol(s[i]) }

  function Pad(n: nat): string { seq(n, _ => '=') }

  /** Decodes one padded group. */
  function Group(g: string): Option<seq<Byte>>
    requires |g| == 4
  {
    if !IsSymbol(g[0]) || !IsSymbol(g[1]) then None
    else
      var v0, v1 := ValueOf(g[0]), ValueOf(g[1]);
      var first: Byte := v0 * 4 + v1 / 16;
      if IsSymbol(g[2]) then
        var v2 := ValueOf(g[2]);
        var second: Byte := (v1 % 16) * 16 + v2 / 4;
        if IsSymbol(g[3]) then
          var third: Byte := (v2 % 4) * 64 + ValueOf(g[3]);
          Some([first, second, third])
        else if g[3] == '=' then Some([first, second]) else None
      else if g[2] == '=' && g[3] == '=' then Some([first]) else None
  }

  /** Decodes padded text; only the last group may be padded. */
  function FromPadded(s: string): Option<seq<Byte>> {
    if s == "" then Some([])
    else if |s| < 4 then None
    else
      match Group(s[..4])
      case None => None
      case Some(bytes) =>
        if |s| == 4 then Some(bytes)
        else if |bytes| < 3 then None
        else match FromPadded(s[4..]) case None => None case Some(rest) => Some(bytes + rest)
  }

  /** `_decode`: the padding is put back from the length. */
  function Decode(s: string): Option<seq<Byte>> {
    FromPadded(s + Pad(-|s| % 4))
  }

  lemma Recombine(a: Byte, b: Byte, c: Byte)
    ensures S0(a) * 4 + S1(a, b) / 16 == a
    ensures (S1(a, b) % 16) * 16 + S2(b, c) / 4 == b
    ensures (S2(b, c) % 4) * 64 + S3(c) == c
  {
  }

  lemma GroupOfThree(a: Byte, b: Byte, c: Byte)
    ensures var g := [Symbol(S0(a)), Symbol(S1(a, b)), Symbol(S2(b, c)), Symbol(S3(c))];
      AllSymbols(g) && Group(g) == Some([a, b, c])
  {
    Recombine(a, b, c);
    SymbolRoundTrip(S0(a));
    SymbolRoundTrip(S1(a, b));
    SymbolRoundTrip(S2(b, c));
    SymbolRoundTrip(S3(c));
    hide Symbol, ValueOf, IsSymbol, S0, S1, S2, S3;
  }

  lemma GroupOfTwo(a: Byte, b: Byte)
    ensures var g := [Symbol(S0(a)), Symbol(S1(a, b)), Symbol(S2(b, 0))];
      AllSymbols(g) && Group(g + Pad(1)) == Some([a, b])
  {
    Recombine(a, b, 0);
    SymbolRoundTrip(S0(a));
    SymbolRoundTrip(S1(a, b));
    SymbolRoundTrip(S2(b, 0));
    assert !IsSymbol('=');
    hide Symbol, ValueOf, IsSymbol, S0, S1, S2, S3;
  }

  lemma GroupOfOne(a: Byte)
    ensures var g := [Symbol(S0(a)), Symbol(S1(a, 0))];
      AllSymbols(g) && Group(g + Pad(2)) == Some([a])
  {
    Recombine(a, 0, 0);
    SymbolRoundTrip(S0(a));
    SymbolRoundTrip(S1(a, 0));
    assert !IsSymbol('=');
    hide Symbol, ValueOf, IsSymbol, S0, S1, S2, S3;
  }

  /** The symbols of the first group, without its padding. */
  function Head(bytes: seq<Byte>): string
    requires bytes != []
  {
    if |bytes| == 1 then [Symbol(S0(bytes[0])), Symbol(S1(bytes[0], 0))]
    else if |bytes| == 2 then [Symbol(S0(bytes[0])), Symbol(S1(bytes[0], bytes[1])), Symbol(S2(bytes[1], 0))]
    else [Symbol(S0(bytes[0])), Symbol(S1(bytes[0], bytes[1])), Symbol(S2(bytes[1], bytes[2])), Symbol(S3(bytes[2]))]
  }

  /** Padded text starts with one group, and goes on with the rest when there are more than three bytes. */
  lemma FirstGroup(bytes: seq<Byte>)
    requires bytes != []
    ensures AllSymbols(Head(bytes)) && 2 <= |Head(bytes)| <= 4
    ensures |bytes| < 3 ==> |Head(bytes)| == |bytes| + 1 && Padded(bytes) == Head(bytes) + Pad(3 - |bytes|)
    ensures |bytes| < 3 ==> Group(Padded(bytes)) == Some(bytes)
    ensures |bytes| >= 3 ==> |Head(bytes)| == 4 && Padded(bytes) == Head(bytes) + Padded(bytes[3..])
    ensures |bytes| >= 3 ==> Group(Head(bytes)) == Some(bytes[..3])
  {
    if |bytes| == 1 {
      GroupOfOne(bytes[0]);
      assert bytes == [bytes[0]] && Padded(bytes) == Head(bytes) + Pad(2);
    } else if |bytes| == 2 {
      GroupOfTwo(bytes[0], bytes[1]);
      assert bytes == [bytes[0], bytes[1]] && Padded(bytes) == Head(bytes) + Pad(1);
    } else {
      GroupOfThree(bytes[0], bytes[1], bytes[2]);
      assert bytes[..3] == [bytes[0], bytes[1], bytes[2]];
    }
  }

  lemma OneMoreGroup(g: string, three: seq<Byte>, s: string, rest: seq<Byte>)
    requires |g| == 4 && Group(g) == Some(three) && |three| == 3
    requires FromPadded(s) == Some(rest) && (s == "" ==> rest == [])
    ensures FromPadded(g + s) == Some(three + rest)
  {
    hide Group;
    var whole := g + s;
    assert whole[..4] == g && whole[4..] == s;
    assert three + [] == three;
    if s != "" {
      assert FromPadded(whole[4..]) == Some(rest);
    }
  }

  /** Padded text decodes to the bytes it encodes. */
  lemma {:induction false} PaddedRoundTrip(bytes: seq<Byte>)
    ensures FromPadded(Padded(bytes)) == Some(bytes)
  {
    if bytes != [] {
      FirstGroup(bytes);
      if |bytes| < 3 {
        hide Head, Padded, Group;
        assert Padded(bytes)[..4] == Padded(bytes);
      } else {
        PaddedRoundTrip(bytes[3..]);
        NothingPadded(bytes[3..]);
        OneMoreGroup(Head(bytes), bytes[..3], Padded(bytes[3..]), bytes[3..]);
        hide *;
        assert bytes == bytes[..3] + bytes[3..];
      }
    }
  }

  lemma NothingPadded(bytes: seq<Byte>)
    ensures Padded(bytes) == "" <==> bytes == []
  {
  }

  lemma OneMoreHead(head: string, rest: string)
    requires |head| == 4
    ensures head + (rest + Pad(-|rest| % 4)) == (head + rest) + Pad(-|head + rest| % 4)
  {
    assert -(4 + |rest|) % 4 == -|rest| % 4;
  }

  /** Stripping removes exactly the padding, which the length determines. */
  lemma {:induction false} PaddedShape(bytes: seq<Byte>)
    ensures AllSymbols(Encode(bytes))
    ensures Padded(bytes) == Encode(bytes) + Pad(-|Encode(bytes)| % 4)
  {
    if bytes != [] {
      FirstGroup(bytes);
      EncodeParts(bytes);
      if |bytes| < 3 {
        assert -(|bytes| + 1) % 4 == 3 - |bytes|;
      } else {
        PaddedShape(bytes[3..]);
        OneMoreHead(Head(bytes), Encode(bytes[3..]));
      }
      hide Head, Padded, Encode, IsSymbol, Group;
    }
  }

  lemma EncodeParts(bytes: seq<Byte>)
    requires bytes != []
    ensures Encode(bytes) == Head(bytes) + (if |bytes| < 3 then "" else Encode(bytes[3..]))
  {
    FirstGroup(bytes);
    var head := Head(bytes);
    assert !IsPad(head[|head| - 1]);
    hide Head, Padded, Group, IsSymbol;
    if |bytes| < 3 {
      StripTail(head, Pad(3 - |bytes|));
      StripPad(3 - |bytes|);
    } else {
      StripTail(head, Padded(bytes[3..]));
    }
  }

  lemma {:induction false} StripPad(n: nat)
    ensures StripRight(Pad(n), IsPad) == ""
  {
    if n > 0 {
      assert Pad(n)[..n - 1] == Pad(n - 1);
      StripPad(n - 1);
    }
  }

  lemma {:induction false} StripTail(head: string, tail: string)
    requires head != "" && !IsPad(head[|head| - 1])
    ensures StripRight(head + tail, IsPad) == head + StripRight(tail, IsPad)
  {
    var s := head + tail;
    if tail == "" {
      assert s == head;
    } else if IsPad(tail[|tail| - 1]) {
      assert s[..|s| - 1] == head + tail[..|tail| - 1];
      StripTail(head, tail[..|tail| - 1]);
    }
  }

  /** Decoding inverts encoding on every byte string. */
  lemma RoundTrip(bytes: seq<Byte>)
    ensures Decode(Encode(bytes)) == Some(bytes)
  {
    PaddedRoundTrip(bytes);
    PaddedShape(bytes);
  }

  /** Different byte strings have different encodings, and no encoding contains a dot. */
  lemma EncodingIsSafe(a: seq<Byte>, b: seq<Byte>)
    ensures Encode(a) == Encode(b) <==> a == b
    ensures '.' !in Encode(a)
  {
    RoundTrip(a);
    RoundTrip(b);
    PaddedShape(a);
  }
}
