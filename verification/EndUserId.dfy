/**
 The gateway's end-user id (app/core/gateway.py): `tenant:<tenant>/user:<principal>`, each part
 percent-encoded over UTF-8 (sections 2.1 and 2.3 of RFC 3986), and its strict parser.
 */
module EndUserId {
  import opened Wrappers
  import opened Utf8

  predicate Unreserved(b: int) {
    'A' as int <= b <= 'Z' as int || 'a' as int <= b <= 'z' as int || '0' as int <= b <= '9' as int
    || b == '_' as int || b == '.' as int || b == '-' as int || b == '~' as int
  }

  function HexDigit(d: nat): char
    requires d < 16
  {
    if d < 10 then ('0' as int + d) as char else ('A' as int + d - 10) as char
  }

  /** The value of a hexadecimal digit in either case; None for any other character. */
  function HexValue(c: char): Option<nat> {
    if '0' <= c <= '9' then Some(c as int - '0' as int)
    else if 'A' <= c <= 'F' then Some(c as int - 'A' as int + 10)
    else if 'a' <= c <= 'f' then Some(c as int - 'a' as int + 10)
    else None
  }

  predicate UpperHex(c: char) {
    '0' <= c <= '9' || 'A' <= c <= 'F'
  }

  /** An unreserved octet is itself; any other is a percent sign and its two upper-case hexadecimal digits. */
  function QuoteByte(b: Byte): (q: string)
    ensures Unreserved(b) ==> q == [b as char]
    ensures !Unreserved(b) ==>
              && |q| == 3 && q[0] == '%' && UpperHex(q[1]) && UpperHex(q[2])
              && HexValue(q[1]).value * 16 + HexValue(q[2]).value == b
  {
    if Unreserved(b) then [b as char] else ['%', HexDigit(b / 16), HexDigit(b % 16)]
  }

  function QuoteBytes(bytes: seq<Byte>): string {
    if bytes == [] then "" else QuoteByte(bytes[0]) + QuoteBytes(bytes[1..])
  }

  /** `quote(s, safe="")`. */
  function Quote(s: string): string {
    QuoteBytes(Encode(s))
  }

  /** The characters the id's two parts may hold. */
  predicate Allowed(c: char) {
    Unreserved(c as int) || c == '%'
  }

  predicate AllAllowed(s: string) {
    forall i :: 0 <= i < |s| ==> Allowed(s[i])
  }

  /** A percent sign that two hexadecimal digits do not follow stands for itself. */
  function UnquoteBytes(s: string): seq<Byte>
    requires AllAllowed(s)
  {
    if s == "" then []
    else if s[0] == '%' && |s| >= 3 && HexValue(s[1]).Some? && HexValue(s[2]).Some? then
      [HexValue(s[1]).value * 16 + HexValue(s[2]).value] + UnquoteBytes(s[3..])
    else [s[0] as int] + UnquoteBytes(s[1..])
  }

  /** `unquote` of a part the pattern let through. */
  function Unquote(s: string): string
    requires AllAllowed(s)
  {
    if '%' !in s then s else Decode(UnquoteBytes(s))
  }

  const TENANT := "tenant:"
  const USER := "/user:"

  function MakeId(tenant: string, principal: string): string {
    TENANT + Quote(tenant) + USER + Quote(principal)
  }

  /** How many allowed characters `s` begins with. */
  function Span(s: string): (k: nat)
    ensures k <= |s| && AllAllowed(s[..k]) && (k < |s| ==> !Allowed(s[k]))
  {
    if s == "" || !Allowed(s[0]) then 0 else
      var k := Span(s[1..]);
      assert s[..k + 1] == [s[0]] + s[1..][..k];
      1 + k
  }

  /** The pattern's two groups when it matches the whole id. */
  function Groups(id: string): (g: Option<(string, string)>)
    ensures g.Some? ==> AllAllowed(g.value.0) && AllAllowed(g.value.1)
  {
    if !(TENANT <= id) then None
    else
      var rest := id[|TENANT|..];
      var k := Span(rest);
      if USER <= rest[k..] && AllAllowed(rest[k + |USER|..]) then Some((rest[..k], rest[k + |USER|..])) else None
  }

  function ParseId(id: string): Option<(string, string)> {
    match Groups(id)
    case None => None
    case Some((a, b)) =>
      var tenant, principal := Unquote(a), Unquote(b);
      if MakeId(tenant, principal) == id then Some((tenant, principal)) else None
  }

  // ---- Printing and parsing are mutually inverse ------------------------------------------------------

  lemma {:induction false} QuoteIsAllowed(bytes: seq<Byte>)
    ensures AllAllowed(QuoteBytes(bytes))
  {
    if bytes != [] {
      QuoteIsAllowed(bytes[1..]);
      assert AllAllowed(QuoteByte(bytes[0]));
    }
  }

  lemma HexRoundTrip(d: nat)
    requires d < 16
    ensures HexValue(HexDigit(d)) == Some(d)
  {
  }

  lemma {:induction false} UnquoteQuoteBytes(bytes: seq<Byte>)
    ensures AllAllowed(QuoteBytes(bytes)) && UnquoteBytes(QuoteBytes(bytes)) == bytes
  {
    QuoteIsAllowed(bytes);
    if bytes != [] {
      UnquoteQuoteBytes(bytes[1..]);
      var q, rest := QuoteByte(bytes[0]), QuoteBytes(bytes[1..]);
      assert (q + rest)[|q|..] == rest;
      if !Unreserved(bytes[0]) {
        HexRoundTrip(bytes[0] / 16);
        HexRoundTrip(bytes[0] % 16);
      }
    }
  }

  lemma {:induction false} PlainTextDecodes(s: string)
    requires AllAllowed(s) && '%' !in s
    ensures Decode(UnquoteBytes(s)) == s
  {
    if s != "" {
      var bytes := UnquoteBytes(s);
      assert s[0] in s && forall c :: c in s[1..] ==> c in s;
      PlainTextDecodes(s[1..]);
      assert bytes[0] < 0x80 && Matched(bytes, 1) == 1 && DecodeChar(bytes) == (s[0], 1);
    }
  }

  lemma UnquoteQuote(s: string)
    ensures AllAllowed(Quote(s)) && Unquote(Quote(s)) == s
  {
    UnquoteQuoteBytes(Encode(s));
    DecodeEncode(s);
    if '%' !in Quote(s) {
      PlainTextDecodes(Quote(s));
    }
  }

  lemma {:induction false} SpanStops(a: string, rest: string)
    requires AllAllowed(a) && (rest != "" ==> !Allowed(rest[0]))
    ensures Span(a + rest) == |a|
  {
    if a == "" {
      assert a + rest == rest;
    } else {
      assert (a + rest)[1..] == a[1..] + rest;
      SpanStops(a[1..], rest);
    }
  }

  lemma GroupsOfId(tenant: string, principal: string)
    ensures Groups(MakeId(tenant, principal)) == Some((Quote(tenant), Quote(principal)))
  {
    var a, b, id := Quote(tenant), Quote(principal), MakeId(tenant, principal);
    QuoteIsAllowed(Encode(tenant));
    QuoteIsAllowed(Encode(principal));
    var rest := id[|TENANT|..];
    assert rest == a + (USER + b);
    SpanStops(a, USER + b);
    assert rest[|a|..] == USER + b && rest[..|a|] == a && rest[|a| + |USER|..] == b;
  }

  /** An id parses to a tenant and a principal exactly when it is the one printed for them. */
  lemma ParseInvertsMake(id: string, tenant: string, principal: string)
    ensures ParseId(id) == Some((tenant, principal)) <==> id == MakeId(tenant, principal)
  {
    GroupsOfId(tenant, principal);
    UnquoteQuote(tenant);
    UnquoteQuote(principal);
  }

  /** Different people have different ids. */
  lemma IdsAreInjective(t1: string, p1: string, t2: string, p2: string)
    requires MakeId(t1, p1) == MakeId(t2, p2)
    ensures t1 == t2 && p1 == p2
  {
    ParseInvertsMake(MakeId(t1, p1), t1, p1);
    ParseInvertsMake(MakeId(t1, p1), t2, p2);
  }

  /** Only canonical ids parse: any other spelling of the same octets is refused. */
  lemma OnlyCanonicalIdsParse(id: string)
    ensures ParseId(id).Some? <==> exists tenant, principal :: id == MakeId(tenant, principal)
  {
    if exists tenant, principal :: id == MakeId(tenant, principal) {
      var tenant, principal :| id == MakeId(tenant, principal);
      ParseInvertsMake(id, tenant, principal);
    }
  }
}
