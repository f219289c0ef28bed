/** Lexicographic order of texts, decimal numerals, and quoted strings: the lexical half of canonical JSON. */
module CanonicalText {
  import opened Common

  datatype ProtocolError = InvalidJson | DuplicateKey | OutsideProfile

  // ---------- the order of object keys ----------

  predicate Before(a: string, b: string) {
    b != [] && (a == [] || a[0] < b[0] || (a[0] == b[0] && Before(a[1..], b[1..])))
  }

  lemma {:induction false} BeforeIsStrict(a: string, b: string, c: string)
    ensures !Before(a, a)
    ensures a == b || Before(a, b) || Before(b, a)
    ensures Before(a, b) && Before(b, c) ==> Before(a, c)
  {
    if a != [] {
      BeforeIsStrict(a[1..], if b != [] then b[1..] else [], if c != [] then c[1..] else []);
      if b != [] {
        assert a[0] == b[0] && a[1..] == b[1..] ==> a == b by {
          assert a == [a[0]] + a[1..] && b == [b[0]] + b[1..];
        }
      }
    }
  }

  predicate IsFirst(a: string, s: set<string>) {
    a in s && forall b | b in s && b != a :: Before(a, b)
  }

  lemma {:induction false} FirstExists(s: set<string>)
    requires s != {}
    ensures exists a :: IsFirst(a, s)
    decreases s
  {
    var x :| x in s;
    var others := s - {x};
    if others == {} {
      assert s == {x} && IsFirst(x, s);
    } else {
      FirstExists(others);
      var a :| IsFirst(a, others);
      BeforeIsStrict(x, a, a);
      var first := if Before(x, a) then x else a;
      forall b | b in s && b != first
        ensures Before(first, b)
      {
        if b != x {
          BeforeIsStrict(x, a, b);
        }
      }
      assert IsFirst(first, s);
    }
  }

  lemma FirstIsUnique(s: set<string>)
    ensures forall a, a' | IsFirst(a, s) && IsFirst(a', s) :: a == a'
  {
    forall a, a' | IsFirst(a, s) && IsFirst(a', s)
      ensures a == a'
    {
      BeforeIsStrict(a, a', a);
    }
  }

  function First(s: set<string>): (a: string)
    requires s != {}
    ensures IsFirst(a, s)
  {
    FirstExists(s);
    FirstIsUnique(s);
    var a :| IsFirst(a, s);
    a
  }

  /** `sorted(keys)`. */
  function SortedTexts(s: set<string>): (r: seq<string>)
    ensures forall a :: a in r <==> a in s
    decreases s
  {
    if s == {} then [] else [First(s)] + SortedTexts(s - {First(s)})
  }

  /** They agree up to a place where the first has ended, or has the smaller character. */
  ghost predicate Precedes(a: string, b: string) {
    exists n | 0 <= n <= |a| && n < |b| :: a[..n] == b[..n] && (n < |a| ==> a[n] < b[n])
  }

  lemma {:induction false} BeforeMeaning(a: string, b: string)
    ensures Before(a, b) <==> Precedes(a, b)
  {
    if a == [] || b == [] || a[0] != b[0] {
      PrecedesAtOnce(a, b);
    } else {
      BeforeMeaning(a[1..], b[1..]);
      PrecedesLater(a, b);
    }
  }

  lemma PrecedesAtOnce(a: string, b: string)
    requires a == [] || b == [] || a[0] != b[0]
    ensures Precedes(a, b) <==> b != [] && (a == [] || a[0] < b[0])
  {
    forall n | 0 < n <= |a| && n < |b|
      ensures a[..n] != b[..n]
    {
      assert a[..n][0] != b[..n][0];
    }
    if b != [] && (a == [] || a[0] < b[0]) {
      assert a[..0] == b[..0];
    }
  }

  lemma PrecedesLater(a: string, b: string)
    requires a != [] && b != [] && a[0] == b[0]
    ensures Precedes(a, b) <==> Precedes(a[1..], b[1..])
  {
    if n :| 0 <= n <= |a| && n < |b| && a[..n] == b[..n] && (n < |a| ==> a[n] < b[n]) {
      assert n > 0;
      assert a[1..][..n - 1] == a[..n][1..] && b[1..][..n - 1] == b[..n][1..];
    }
    if n :| 0 <= n <= |a[1..]| && n < |b[1..]| && a[1..][..n] == b[1..][..n] && (n < |a[1..]| ==> a[1..][n] < b[1..][n]) {
      assert a[..n + 1] == [a[0]] + a[1..][..n] && b[..n + 1] == [b[0]] + b[1..][..n];
    }
  }

  /** The keys come in the strictly ascending order of their characters. */
  lemma SortedTextsAscend(s: set<string>)
    ensures forall i, j | 0 <= i < j < |SortedTexts(s)| :: Precedes(SortedTexts(s)[i], SortedTexts(s)[j])
  {
    KeysComeBefore(s);
    forall i, j | 0 <= i < j < |SortedTexts(s)|
      ensures Precedes(SortedTexts(s)[i], SortedTexts(s)[j])
    {
      BeforeMeaning(SortedTexts(s)[i], SortedTexts(s)[j]);
    }
  }

  lemma {:induction false} KeysComeBefore(s: set<string>)
    ensures forall i, j | 0 <= i < j < |SortedTexts(s)| :: Before(SortedTexts(s)[i], SortedTexts(s)[j])
    decreases s
  {
    if s != {} {
      var first, others := First(s), SortedTexts(s - {First(s)});
      KeysComeBefore(s - {first});
      forall j | 0 <= j < |others|
        ensures Before(first, others[j])
      {
        assert others[j] in others;
      }
    }
  }

  // ---------- numerals ----------

  predicate IsDigit(c: char) {
    '0' <= c <= '9'
  }

  ghost predicate AllDigits(s: string) {
    forall i | 0 <= i < |s| :: IsDigit(s[i])
  }

  function Numeral(n: nat): (s: string)
    ensures s != [] && AllDigits(s)
  {
    if n < 10 then [('0' as int + n) as char] else Numeral(n / 10) + [('0' as int + n % 10) as char]
  }

  function ValueOf(s: string): int {
    if s == [] then 0 else 10 * ValueOf(s[..|s| - 1]) + (s[|s| - 1] as int - '0' as int)
  }

  lemma {:induction false} NumeralValue(n: nat)
    ensures ValueOf(Numeral(n)) == n
    ensures Numeral(n)[0] == '0' ==> n == 0
    ensures n == 0 ==> Numeral(n) == "0"
  {
    if n < 10 {
      assert Numeral(n)[..0] == [];
    } else {
      NumeralValue(n / 10);
      assert Numeral(n)[..|Numeral(n)| - 1] == Numeral(n / 10);
    }
  }

  function TenTo(n: nat): nat {
    if n == 0 then 1 else 10 * TenTo(n - 1)
  }

  /** The number a string of digits stands for: each digit times the power of ten of its place. */
  function InPlaces(s: string): int {
    if s == [] then 0 else (s[0] as int - 48) * TenTo(|s| - 1) + InPlaces(s[1..])
  }

  lemma {:induction false} OnePlaceMore(s: string, c: char)
    ensures InPlaces(s + [c]) == 10 * InPlaces(s) + (c as int - 48)
  {
    var more := s + [c];
    if s == [] {
      assert more[1..] == [];
    } else {
      var d := s[0] as int - 48;
      assert more[1..] == s[1..] + [c];
      OnePlaceMore(s[1..], c);
      assert d * TenTo(|s|) == 10 * (d * TenTo(|s| - 1));
    }
  }

  lemma {:induction false} ValueMeaning(s: string)
    ensures ValueOf(s) == InPlaces(s)
  {
    if s != [] {
      var init, last := s[..|s| - 1], s[|s| - 1];
      assert s == init + [last];
      ValueMeaning(init);
      OnePlaceMore(init, last);
    }
  }

  /** A numeral is decimal: digits only, no idle zero in front, and the places add up to the number. */
  lemma NumeralMeaning(n: nat)
    ensures var s := Numeral(n);
      && s != [] && (forall i | 0 <= i < |s| :: 48 <= s[i] as int <= 57)
      && InPlaces(s) == n && (|s| > 1 ==> s[0] != '0')
  {
    NumeralValue(n);
    ValueMeaning(Numeral(n));
  }

  /** How many digits a text starts with. */
  function Run(s: string): (n: nat)
    ensures n <= |s|
  {
    if s == [] || !IsDigit(s[0]) then 0 else 1 + Run(s[1..])
  }

  lemma {:induction false} RunStops(digits: string, rest: string)
    requires AllDigits(digits) && (rest == [] || !IsDigit(rest[0]))
    ensures Run(digits + rest) == |digits|
  {
    if digits == [] {
      assert digits + rest == rest;
    } else {
      assert (digits + rest)[1..] == digits[1..] + rest;
      RunStops(digits[1..], rest);
    }
  }

  /** The length of a leading `.digits`, or 0. */
  function FractionLength(s: string): (n: nat)
    ensures n <= |s|
  {
    if s != [] && s[0] == '.' && Run(s[1..]) > 0 then 1 + Run(s[1..]) else 0
  }

  /** The length of a leading exponent part, or 0. */
  function ExponentLength(s: string): (n: nat)
    ensures n <= |s|
  {
    if s == [] || (s[0] != 'e' && s[0] != 'E') then 0
    else if |s| > 1 && (s[1] == '+' || s[1] == '-') then
      if Run(s[2..]) > 0 then 2 + Run(s[2..]) else 0
    else if Run(s[1..]) > 0 then 1 + Run(s[1..])
    else 0
  }

  // ---------- strings ----------

  predicate Printable(s: string) {
    forall i | 0 <= i < |s| :: ' ' <= s[i] <= '~'
  }

  function Escape(s: string): string {
    if s == [] then []
    else (if s[0] == '"' || s[0] == '\\' then ['\\', s[0]] else [s[0]]) + Escape(s[1..])
  }

  function Quoted(s: string): string {
    "\"" + Escape(s) + "\""
  }

  /** Escaping goes character by character: a backslash before each quote and each backslash, and nothing else. */
  lemma EscapeMeaning(s: string, c: char, t: string)
    ensures Escape(s + [c] + t) == Escape(s) + (if c == '"' || c == '\\' then ['\\', c] else [c]) + Escape(t)
    ensures Escape([]) == []
  {
    EscapeParts(s + [c], t);
    EscapeParts(s, [c]);
    assert [c][1..] == [];
  }

  lemma {:induction false} EscapeParts(s: string, t: string)
    ensures Escape(s + t) == Escape(s) + Escape(t)
  {
    if s == [] {
      assert s + t == t;
    } else {
      assert (s + t)[1..] == s[1..] + t;
      EscapeParts(s[1..], t);
    }
  }

  function HexValue(c: char): Option<nat> {
    if '0' <= c <= '9' then Some(c as int - '0' as int)
    else if 'a' <= c <= 'f' then Some(10 + (c as int - 'a' as int))
    else if 'A' <= c <= 'F' then Some(10 + (c as int - 'A' as int))
    else None
  }

  /** The character of a two-character escape. */
  function ShortEscape(c: char): Option<char> {
    if c == '"' || c == '\\' || c == '/' then Some(c)
    else if c == 'b' then Some(8 as char)
    else if c == 'f' then Some(12 as char)
    else if c == 'n' then Some('\n')
    else if c == 'r' then Some('\r')
    else if c == 't' then Some('\t')
    else None
  }

  /**
   The character of a `\u` escape. A surrogate, paired or not, can only yield text outside the
   profile, so it is refused here already.
   */
  function LongEscape(s: string): Result<char, ProtocolError>
    requires |s| == 4
  {
    var a, b, c, d := HexValue(s[0]), HexValue(s[1]), HexValue(s[2]), HexValue(s[3]);
    if a.None? || b.None? || c.None? || d.None? then Err(InvalidJson)
    else
      var code := 0x1000 * a.value + 0x100 * b.value + 0x10 * c.value + d.value;
      if 0xD800 <= code < 0xE000 || code >= 0x1_0000 then Err(OutsideProfile) else Ok(code as char)
  }

  /** The rest of a string literal after its opening quote: its characters and what follows it. */
  function ParseChars(s: string): (r: Result<(string, string), ProtocolError>)
    ensures r.Ok? ==> |r.value.1| < |s|
    decreases |s|
  {
    if s == [] then Err(InvalidJson)
    else if s[0] == '"' then Ok(([], s[1..]))
    else if s[0] < ' ' then Err(InvalidJson)
    else if s[0] != '\\' then Prefixed(s[0], ParseChars(s[1..]))
    else if |s| < 2 then Err(InvalidJson)
    else if s[1] == 'u' then
      if |s| < 6 then Err(InvalidJson)
      else
        var c := LongEscape(s[2..6]);
        if c.Err? then Err(c.error) else Prefixed(c.value, ParseChars(s[6..]))
    else if ShortEscape(s[1]).None? then Err(InvalidJson)
    else Prefixed(ShortEscape(s[1]).value, ParseChars(s[2..]))
  }

  function Prefixed(c: char, r: Result<(string, string), ProtocolError>): (p: Result<(string, string), ProtocolError>)
    ensures p.Ok? <==> r.Ok?
    ensures p.Ok? ==> p.value == ([c] + r.value.0, r.value.1)
  {
    if r.Err? then r else Ok(([c] + r.value.0, r.value.1))
  }

  lemma ReadOne(c: char, tail: string)
    requires ' ' <= c && c != '"' && c != '\\'
    ensures ParseChars([c] + tail) == Prefixed(c, ParseChars(tail))
  {
    assert ([c] + tail)[1..] == tail;
  }

  lemma ReadEscaped(c: char, tail: string)
    requires c == '"' || c == '\\'
    ensures ParseChars(['\\', c] + tail) == Prefixed(c, ParseChars(tail))
  {
    assert (['\\', c] + tail)[2..] == tail;
  }

  lemma Regroup(a: string, b: string, c: string)
    ensures (a + b) + c == a + (b + c)
  {
  }

  /** Reading undoes quoting. */
  lemma {:induction false} QuotedRoundTrip(s: string, rest: string)
    requires Printable(s)
    ensures ParseChars(Escape(s) + ("\"" + rest)) == Ok((s, rest))
  {
    if s == [] {
      assert Escape(s) + ("\"" + rest) == ['"'] + rest;
      assert (['"'] + rest)[1..] == rest;
    } else {
      var tail := Escape(s[1..]) + ("\"" + rest);
      QuotedRoundTrip(s[1..], rest);
      assert s == [s[0]] + s[1..];
      if s[0] == '"' || s[0] == '\\' {
        ReadEscaped(s[0], tail);
        Regroup(['\\', s[0]], Escape(s[1..]), "\"" + rest);
      } else {
        ReadOne(s[0], tail);
        Regroup([s[0]], Escape(s[1..]), "\"" + rest);
      }
    }
  }
}
