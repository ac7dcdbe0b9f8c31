/**
 ETags, and the headers that name them (objstore/objstore.go, etag and etagMatch).
 */
module ETags {

  const DIGITS := "0123456789abcdef"

  function Hex(n: nat): string {
    if n < 16 then [DIGITS[n]] else Hex(n / 16) + [DIGITS[n % 16]]
  }

  function Zeros(k: nat): string {
    if k == 0 then "" else "0" + Zeros(k - 1)
  }

  /** At least sixteen digits. */
  function Padded(n: nat): string {
    var h := Hex(n);
    if |h| < 16 then Zeros(16 - |h|) + h else h
  }

  function Quote(s: string): string {
    "\"" + s + "\""
  }

  /** The ETag of the `n`-th number drawn. */
  function ETag(n: nat): string {
    Quote(Padded(n))
  }

  // ----- No two are the same

  predicate IsDigit(c: char) {
    c in DIGITS
  }

  ghost function DigitValue(c: char): nat {
    if exists d :: 0 <= d < 16 && DIGITS[d] == c then
      var d :| 0 <= d < 16 && DIGITS[d] == c;
      d
    else 0
  }

  lemma DigitOf(d: nat)
    requires d < 16
    ensures DigitValue(DIGITS[d]) == d && IsDigit(DIGITS[d])
  {
    assert DIGITS[d] in DIGITS;
  }

  ghost function Value(s: string): nat {
    if s == "" then 0 else 16 * Value(s[..|s| - 1]) + DigitValue(s[|s| - 1])
  }

  lemma {:induction false} ValueOfHex(n: nat)
    ensures Value(Hex(n)) == n && |Hex(n)| > 0 && forall c :: c in Hex(n) ==> IsDigit(c)
  {
    if n < 16 {
      DigitOf(n);
      assert [DIGITS[n]][..0] == "";
    } else {
      ValueOfHex(n / 16);
      DigitOf(n % 16);
      assert Hex(n)[..|Hex(n)| - 1] == Hex(n / 16);
    }
  }

  lemma {:induction false} ZerosWorthless(k: nat, s: string)
    ensures Value(Zeros(k) + s) == Value(s)
    decreases |s|
  {
    if s == "" {
      assert Zeros(k) + s == Zeros(k);
      ZerosAreNone(k);
    } else {
      var n := |s| - 1;
      assert (Zeros(k) + s)[..|Zeros(k) + s| - 1] == Zeros(k) + s[..n];
      ZerosWorthless(k, s[..n]);
    }
  }

  lemma {:induction false} ZerosAre(k: nat)
    ensures |Zeros(k)| == k && forall i :: 0 <= i < k ==> Zeros(k)[i] == '0'
  {
    if k > 0 { ZerosAre(k - 1); }
  }

  lemma {:induction false} ZerosAreNone(k: nat)
    ensures Value(Zeros(k)) == 0
  {
    if k > 0 {
      ZerosAre(k);
      ZerosAre(k - 1);
      assert Zeros(k)[..k - 1] == Zeros(k - 1);
      ZerosAreNone(k - 1);
      DigitOf(0);
    }
  }

  lemma PaddedMeans(n: nat)
    ensures Value(Padded(n)) == n && |Padded(n)| >= 16 && forall c :: c in Padded(n) ==> IsDigit(c)
  {
    hide Hex, Zeros, Value, IsDigit;
    ValueOfHex(n);
    var h := Hex(n);
    if |h| < 16 {
      var z := Zeros(16 - |h|);
      ZerosWorthless(16 - |h|, h);
      ZerosAre(16 - |h|);
      DigitOf(0);
      forall c | c in z + h ensures IsDigit(c) {
        assert c in h || c == '0';
      }
    }
  }

  /** Different numbers have different ETags. */
  lemma OneNumberEach(n: nat, m: nat)
    requires ETag(n) == ETag(m)
    ensures n == m
  {
    PaddedMeans(n);
    PaddedMeans(m);
    Unquote(Padded(n));
    Unquote(Padded(m));
  }

  lemma Unquote(s: string)
    ensures Quote(s)[1..|Quote(s)| - 1] == s
  {
  }

  // ----- Headers

  /** The parts of a list between commas. */
  function Split(s: string): (r: seq<string>)
    ensures |r| > 0
  {
    if s == "" then [""]
    else if s[0] == ',' then [""] + Split(s[1..])
    else
      var r := Split(s[1..]);
      [[s[0]] + r[0]] + r[1..]
  }

  lemma {:induction false} SplitOne(s: string)
    requires ',' !in s
    ensures Split(s) == [s]
  {
    if s != "" {
      SplitOne(s[1..]);
      assert s == [s[0]] + s[1..];
      assert s[0] in s;
    }
  }

  predicate IsSpace(c: char) {
    c in "\t\n\U{000B}\U{000C}\r \U{0085}\U{00A0}\U{1680}\U{2028}\U{2029}\U{202F}\U{205F}\U{3000}" ||
      '\U{2000}' <= c <= '\U{200A}'
  }

  predicate IsQuote(c: char) { c == '"' }

  function TrimLeft(s: string, cut: char -> bool): string {
    if s == "" || !cut(s[0]) then s else TrimLeft(s[1..], cut)
  }

  function TrimRight(s: string, cut: char -> bool): string {
    if s == "" || !cut(s[|s| - 1]) then s else TrimRight(s[..|s| - 1], cut)
  }

  function Trim(s: string, cut: char -> bool): string {
    TrimRight(TrimLeft(s, cut), cut)
  }

  /** One of a header's items names an ETag: any, or that one, quoted or not. */
  predicate Names(item: string, etag: string) {
    var v := Trim(item, IsSpace);
    v == "*" || v == etag || Quote(Trim(v, IsQuote)) == etag
  }

  predicate Matches(header: string, etag: string) {
    exists i :: 0 <= i < |Split(header)| && Names(Split(header)[i], etag)
  }

  method ETagMatch(header: string, etag: string) returns (r: bool)
    ensures r <==> Matches(header, etag)
  {
    var items := Split(header);
    for i := 0 to |items|
      invariant forall k :: 0 <= k < i ==> !Names(items[k], etag)
    {
      if Names(items[i], etag) { return true; }
    }
    r := false;
  }

  /** A header of one item that is not "*". */
  predicate SingleTag(header: string) {
    ',' !in header && Trim(header, IsSpace) != "*"
  }

  lemma TrimQuoted(s: string)
    requires s != "" && !IsQuote(s[0]) && !IsQuote(s[|s| - 1])
    ensures Trim(Quote(s), IsQuote) == s
  {
    var q := Quote(s);
    assert q[0] == '"' && q[1..] == s + "\"";
    assert TrimLeft(q, IsQuote) == TrimLeft(q[1..], IsQuote) == s + "\"";
    var p := s + "\"";
    assert p[|p| - 1] == '"' && p[..|p| - 1] == s;
    assert TrimRight(p, IsQuote) == TrimRight(s, IsQuote) == s;
  }

  /** Such a header matches one ETag at most. */
  lemma MatchesOne(header: string, n: nat, m: nat)
    requires SingleTag(header) && Matches(header, ETag(n)) && Matches(header, ETag(m))
    ensures n == m
  {
    hide ETag, Trim, Quote;
    SplitOne(header);
    NamesIts(header, n);
    NamesIts(header, m);
    OneNumberEach(n, m);
  }

  lemma NamesIts(item: string, n: nat)
    requires Names(item, ETag(n)) && Trim(item, IsSpace) != "*"
    ensures ETag(n) == Quote(Trim(Trim(item, IsSpace), IsQuote))
  {
    var v := Trim(item, IsSpace);
    if v == ETag(n) {
      PaddedMeans(n);
      var p := Padded(n);
      assert IsDigit(p[0]) && IsDigit(p[|p| - 1]);
      TrimQuoted(p);
    }
  }

  /** An ETag of digits sent back as it came is such a header, and matches itself. */
  lemma SentBack(p: string)
    requires forall c :: c in p ==> IsDigit(c)
    ensures SingleTag(Quote(p)) && Matches(Quote(p), Quote(p))
  {
    hide IsDigit;
    var e := Quote(p);
    assert e[0] == '"' && e[|e| - 1] == '"' && !IsSpace('"');
    assert Trim(e, IsSpace) == e;
    NotDigit();
    SplitOne(e);
    assert Names(Split(e)[0], e);
  }

  lemma NotDigit()
    ensures !IsDigit(',')
  {
  }

  lemma ETagSentBack(n: nat)
    ensures SingleTag(ETag(n)) && Matches(ETag(n), ETag(n))
  {
    PaddedMeans(n);
    SentBack(Padded(n));
  }
}
