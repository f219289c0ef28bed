/**
 The canonical JSON profile under every identifier and signature: its printer, the strict
 parser (the grammar of RFC 8259, sections 4 to 7, then the profile), and the bytes that are hashed.
 */
module CanonicalJson {
  import opened Common
  import opened CanonicalText

  const DOMAIN_PREFIX: string := "CROSSTRACE-SKETCH" + [0 as char]

  /** A decoded value. Every number that is not an integer literal is a `Float`, which the profile prohibits. */
  datatype Json =
    | Null
    | Bool(b: bool)
    | Int(n: int)
    | Float
    | Text(s: string)
    | List(items: seq<Json>)
    | Object(fields: map<string, Json>)

  /** `_validate_canonical_value` raises nothing. */
  predicate Canonical(v: Json) {
    match v
    case Null => true
    case Bool(_) => true
    case Int(n) => -MAX_SAFE_INTEGER <= n <= MAX_SAFE_INTEGER
    case Float => false
    case Text(s) => Printable(s)
    case List(items) => forall i | 0 <= i < |items| :: Canonical(items[i])
    case Object(fields) => forall k | k in fields :: Printable(k) && Canonical(fields[k])
  }

  // ---------- printing ----------

  function Literal(n: int): string {
    if n < 0 then "-" + Numeral(-n) else Numeral(n)
  }

  /** `json.dumps` with sorted keys and no insignificant whitespace. */
  function Print(v: Json): string
    requires Canonical(v)
    decreases v, 1, 0
  {
    match v
    case Null => "null"
    case Bool(b) => if b then "true" else "false"
    case Int(n) => Literal(n)
    case Text(s) => Quoted(s)
    case List(items) => if items == [] then "[]" else "[" + PrintItems(v, 0)
    case Object(fields) => if fields == map[] then "{}" else "{" + PrintFields(v, SortedTexts(fields.Keys))
  }

  function PrintItems(v: Json, i: nat): string
    requires Canonical(v) && v.List? && i < |v.items|
    decreases v, 0, |v.items| - i
  {
    Print(v.items[i]) + if i + 1 == |v.items| then "]" else "," + PrintItems(v, i + 1)
  }

  function PrintFields(v: Json, keys: seq<string>): string
    requires Canonical(v) && v.Object? && keys != [] && forall k | k in keys :: k in v.fields
    decreases v, 0, |keys|
  {
    assert keys[0] in keys;
    Quoted(keys[0]) + (":" + (Print(v.fields[keys[0]]) +
    if |keys| == 1 then "}" else "," + PrintFields(v, keys[1..])))
  }

  // ---------- parsing ----------

  predicate IsSpace(c: char) {
    c == ' ' || c == '\t' || c == '\n' || c == '\r'
  }

  function SkipSpace(s: string): (r: string)
    ensures |r| <= |s|
    ensures r == [] || !IsSpace(r[0])
  {
    if s != [] && IsSpace(s[0]) then SkipSpace(s[1..]) else s
  }

  predicate Starts(s: string, word: string) {
    |word| <= |s| && s[..|word|] == word
  }

  /** `object_pairs`: a repeated key is an error, not an overwrite. */
  function ObjectPairs(pairs: seq<(string, Json)>): Result<map<string, Json>, ProtocolError> {
    if pairs == [] then Ok(map[])
    else
      var last := pairs[|pairs| - 1];
      var earlier := ObjectPairs(pairs[..|pairs| - 1]);
      if earlier.Err? then earlier
      else if last.0 in earlier.value then Err(DuplicateKey)
      else Ok(earlier.value[last.0 := last.1])
  }

  method FillObject(pairs: seq<(string, Json)>) returns (r: Result<map<string, Json>, ProtocolError>)
    ensures r == ObjectPairs(pairs)
  {
    var result: map<string, Json> := map[];
    for i := 0 to |pairs|
      invariant ObjectPairs(pairs[..i]) == Ok(result)
    {
      assert pairs[..i + 1][..i] == pairs[..i];
      if pairs[i].0 in result {
        FirstErrorStays(pairs, i + 1);
        return Err(DuplicateKey);
      }
      result := result[pairs[i].0 := pairs[i].1];
    }
    assert pairs[..|pairs|] == pairs;
    r := Ok(result);
  }

  /** Distinct keys fill an object with exactly the pairs; a repeated key anywhere is refused. */
  lemma {:induction false} PairsMeaning(pairs: seq<(string, Json)>)
    ensures ObjectPairs(pairs).Ok? <==> forall i, j | 0 <= i < j < |pairs| :: pairs[i].0 != pairs[j].0
    ensures ObjectPairs(pairs).Ok? ==> forall k, v ::
              (k in ObjectPairs(pairs).value && ObjectPairs(pairs).value[k] == v) <==> (k, v) in pairs
  {
    if pairs != [] {
      var init, last := pairs[..|pairs| - 1], pairs[|pairs| - 1];
      assert pairs == init + [last];
      PairsMeaning(init);
      PairsOneMore(init, last);
    }
  }

  lemma PairsOneMore(init: seq<(string, Json)>, last: (string, Json))
    requires ObjectPairs(init).Ok? ==> forall k, v ::
               (k in ObjectPairs(init).value && ObjectPairs(init).value[k] == v) <==> (k, v) in init
    ensures ObjectPairs(init).Ok? ==>
              (last.0 in ObjectPairs(init).value <==> exists i | 0 <= i < |init| :: init[i].0 == last.0)
  {
    if ObjectPairs(init).Ok? {
      if last.0 in ObjectPairs(init).value {
        assert (last.0, ObjectPairs(init).value[last.0]) in init;
        var i :| 0 <= i < |init| && init[i] == (last.0, ObjectPairs(init).value[last.0]);
      }
      if i :| 0 <= i < |init| && init[i].0 == last.0 {
        assert (init[i].0, init[i].1) in init;
      }
    }
  }

  lemma {:induction false} FirstErrorStays(pairs: seq<(string, Json)>, i: nat)
    requires i <= |pairs| && ObjectPairs(pairs[..i]).Err?
    ensures ObjectPairs(pairs) == ObjectPairs(pairs[..i])
    decreases |pairs| - i
  {
    if i == |pairs| {
      assert pairs[..i] == pairs;
    } else {
      assert pairs[..i + 1][..i] == pairs[..i];
      FirstErrorStays(pairs, i + 1);
    }
  }

  function ParseUnsigned(t: string): (r: Result<(Json, string), ProtocolError>)
    ensures r.Ok? ==> |r.value.1| < |t|
  {
    if t == [] || !IsDigit(t[0]) then Err(InvalidJson)
    else
      var digits := if t[0] == '0' then 1 else Run(t);
      var fraction := FractionLength(t[digits..]);
      var exponent := ExponentLength(t[digits + fraction..]);
      Ok((if fraction + exponent > 0 then Float else Int(ValueOf(t[..digits])), t[digits + fraction + exponent..]))
  }

  function Negated(r: Result<(Json, string), ProtocolError>): (n: Result<(Json, string), ProtocolError>)
    ensures n.Ok? <==> r.Ok?
    ensures r.Ok? ==> n.value.1 == r.value.1
  {
    if r.Err? || !r.value.0.Int? then r else Ok((Int(-r.value.0.n), r.value.1))
  }

  function ParseNumber(s: string): (r: Result<(Json, string), ProtocolError>)
    ensures r.Ok? ==> |r.value.1| < |s|
  {
    if s != [] && s[0] == '-' then Negated(ParseUnsigned(s[1..])) else ParseUnsigned(s)
  }

  function ParseScalar(s: string): (r: Result<(Json, string), ProtocolError>)
    ensures r.Ok? ==> |r.value.1| < |s|
  {
    if Starts(s, "null") then Ok((Null, s[4..]))
    else if Starts(s, "true") then Ok((Bool(true), s[4..]))
    else if Starts(s, "false") then Ok((Bool(false), s[5..]))
    else if Starts(s, "NaN") then Ok((Float, s[3..]))
    else if Starts(s, "Infinity") then Ok((Float, s[8..]))
    else if Starts(s, "-Infinity") then Ok((Float, s[9..]))
    else ParseNumber(s)
  }

  function ParseValue(s: string): (r: Result<(Json, string), ProtocolError>)
    ensures r.Ok? ==> |r.value.1| < |s|
    decreases |s|, 0
  {
    if s == [] then Err(InvalidJson)
    else if s[0] == '"' then
      var t := ParseChars(s[1..]);
      if t.Err? then Err(t.error) else Ok((Text(t.value.0), t.value.1))
    else if s[0] == '{' then
      var t := SkipSpace(s[1..]);
      if t != [] && t[0] == '}' then Ok((Object(map[]), t[1..]))
      else
        var pairs := ParsePairs(t);
        if pairs.Err? then Err(pairs.error)
        else
          var fields := ObjectPairs(pairs.value.0);
          if fields.Err? then Err(fields.error) else Ok((Object(fields.value), pairs.value.1))
    else if s[0] == '[' then
      var t := SkipSpace(s[1..]);
      if t != [] && t[0] == ']' then Ok((List([]), t[1..]))
      else
        var items := ParseItems(t);
        if items.Err? then Err(items.error) else Ok((List(items.value.0), items.value.1))
    else ParseScalar(s)
  }

  /** From the start of an array element to past the closing bracket. */
  function ParseItems(s: string): (r: Result<(seq<Json>, string), ProtocolError>)
    ensures r.Ok? ==> |r.value.1| < |s|
    decreases |s|, 1
  {
    var first := ParseValue(s);
    if first.Err? then Err(first.error)
    else
      var t := SkipSpace(first.value.1);
      if t == [] then Err(InvalidJson)
      else if t[0] == ']' then Ok(([first.value.0], t[1..]))
      else if t[0] != ',' then Err(InvalidJson)
      else
        var others := ParseItems(SkipSpace(t[1..]));
        if others.Err? then others else Ok(([first.value.0] + others.value.0, others.value.1))
  }

  /** From the opening quote of a key to past the closing brace. */
  function ParsePairs(s: string): (r: Result<(seq<(string, Json)>, string), ProtocolError>)
    ensures r.Ok? ==> |r.value.1| < |s|
    decreases |s|, 1
  {
    if s == [] || s[0] != '"' then Err(InvalidJson)
    else
      var key := ParseChars(s[1..]);
      if key.Err? then Err(key.error)
      else
        var t := SkipSpace(key.value.1);
        if t == [] || t[0] != ':' then Err(InvalidJson)
        else
          var value := ParseValue(SkipSpace(t[1..]));
          if value.Err? then Err(value.error)
          else
            var u := SkipSpace(value.value.1);
            if u == [] then Err(InvalidJson)
            else if u[0] == '}' then Ok(([(key.value.0, value.value.0)], u[1..]))
            else if u[0] != ',' then Err(InvalidJson)
            else
              var others := ParsePairs(SkipSpace(u[1..]));
              if others.Err? then others
              else Ok(([(key.value.0, value.value.0)] + others.value.0, others.value.1))
  }

  /** One value with nothing but whitespace around it, inside the profile. */
  function LoadsStrict(raw: string): (r: Result<Json, ProtocolError>)
    ensures r.Ok? ==> Canonical(r.value)
  {
    var value := ParseValue(SkipSpace(raw));
    if value.Err? then Err(value.error)
    else if SkipSpace(value.value.1) != [] then Err(InvalidJson)
    else if !Canonical(value.value.0) then Err(OutsideProfile)
    else Ok(value.value.0)
  }

  /** Accepts only an object, and only in the one spelling the printer gives it. */
  function DecodeCanonicalObject(raw: string): Result<Json, ProtocolError> {
    var value := LoadsStrict(raw);
    if value.Err? then value
    else if !value.value.Object? then Err(OutsideProfile)
    else if Print(value.value) != raw then Err(OutsideProfile)
    else value
  }

  function DomainBytes(domain: string, v: Json): string
    requires Canonical(v)
  {
    DOMAIN_PREFIX + domain + [0 as char] + Print(v)
  }

  // ---------- parsing undoes printing ----------

  /** What may follow a value inside a printed text. */
  predicate Delimited(rest: string) {
    rest == [] || rest[0] in {',', ']', '}'}
  }

  /** The digits a number literal is read to have are the ones that were printed. */
  lemma NumeralRead(n: nat, rest: string)
    requires Delimited(rest)
    ensures var t := Numeral(n) + rest;
      && IsDigit(t[0])
      && (if t[0] == '0' then 1 else Run(t)) == |Numeral(n)|
      && t[..|Numeral(n)|] == Numeral(n) && t[|Numeral(n)|..] == rest
    ensures ValueOf(Numeral(n)) == n && FractionLength(rest) == 0 && ExponentLength(rest) == 0
  {
    var digits := Numeral(n);
    NumeralValue(n);
    RunStops(digits, rest);
    assert (digits + rest)[0] == digits[0];
  }

  lemma UnsignedRead(n: nat, rest: string)
    requires Delimited(rest)
    ensures ParseUnsigned(Numeral(n) + rest) == Ok((Int(n), rest))
  {
    NumeralRead(n, rest);
    assert rest[0..] == rest;
  }

  lemma Signed(t: string)
    requires t != [] && IsDigit(t[0])
    ensures ParseNumber(t) == ParseUnsigned(t) && ParseNumber("-" + t) == Negated(ParseUnsigned(t))
  {
    assert ("-" + t)[1..] == t;
  }

  lemma LiteralRoundTrip(n: int, rest: string)
    requires Delimited(rest)
    ensures ParseNumber(Literal(n) + rest) == Ok((Int(n), rest))
  {
    var t := Numeral(if n < 0 then -n else n) + rest;
    UnsignedRead(if n < 0 then -n else n, rest);
    assert t[0] == Numeral(if n < 0 then -n else n)[0];
    Signed(t);
    if n < 0 {
      Regroup("-", Numeral(-n), rest);
    }
  }

  lemma LiteralStart(n: int, rest: string)
    ensures var c := (Literal(n) + rest)[0]; IsDigit(c) || c == '-'
    ensures n < 0 ==> |Literal(n)| > 1 && IsDigit((Literal(n) + rest)[1])
  {
  }

  /** A printed value starts with a character that is neither space nor a closing bracket. */
  lemma PrintStart(v: Json)
    requires Canonical(v)
    ensures Print(v) != [] && !IsSpace(Print(v)[0]) && Print(v)[0] != ']' && Print(v)[0] != '}'
  {
    if v.Int? {
      LiteralStart(v.n, []);
      assert Literal(v.n) + [] == Literal(v.n);
    }
  }

  function PairsOf(fields: map<string, Json>, keys: seq<string>): seq<(string, Json)>
    requires forall k | k in keys :: k in fields
  {
    seq(|keys|, i requires 0 <= i < |keys| => (keys[i], fields[keys[i]]))
  }

  lemma {:induction false} PairsFill(fields: map<string, Json>, keys: seq<string>)
    requires (forall k | k in keys :: k in fields) && Distinct(keys)
    ensures ObjectPairs(PairsOf(fields, keys)) == Ok(map k | k in keys :: fields[k])
  {
    var pairs := PairsOf(fields, keys);
    if keys == [] {
    } else {
      var n := |keys| - 1;
      assert keys == keys[..n] + [keys[n]];
      assert pairs[..n] == PairsOf(fields, keys[..n]);
      PairsFill(fields, keys[..n]);
      assert keys[n] !in keys[..n];
      assert pairs[n] == (keys[n], fields[keys[n]]);
      assert (map k | k in keys :: fields[k]) == (map k | k in keys[..n] :: fields[k])[keys[n] := fields[keys[n]]];
    }
  }

  lemma {:induction false} ValueRoundTrip(v: Json, rest: string)
    requires Canonical(v) && Delimited(rest)
    ensures ParseValue(Print(v) + rest) == Ok((v, rest))
    decreases v, 2, 0
  {
    match v {
      case Null => WordsRoundTrip(rest);
      case Bool(b) => WordsRoundTrip(rest);
      case Int(n) => IntRoundTrip(n, rest);
      case Text(s) => TextRoundTrip(s, rest);
      case List(items) => ListRoundTrip(v, rest);
      case Object(fields) => if fields == map[] { EmptyRoundTrip(rest); } else { ObjectRoundTrip(v, rest); }
    }
  }

  lemma WordsRoundTrip(rest: string)
    ensures ParseValue("null" + rest) == Ok((Null, rest))
    ensures ParseValue("true" + rest) == Ok((Bool(true), rest))
    ensures ParseValue("false" + rest) == Ok((Bool(false), rest))
  {
    assert ("null" + rest)[4..] == rest && ("true" + rest)[4..] == rest && ("false" + rest)[5..] == rest;
  }

  lemma TextRoundTrip(s: string, rest: string)
    requires Printable(s)
    ensures ParseValue(Quoted(s) + rest) == Ok((Text(s), rest))
  {
    var t := Escape(s) + ("\"" + rest);
    QuotedRoundTrip(s, rest);
    assert Quoted(s) + rest == "\"" + t;
    assert (Quoted(s) + rest)[1..] == t;
  }

  lemma DiffersFrom(s: string, word: string, i: nat)
    requires i < |s| && i < |word| && s[i] != word[i]
    ensures !Starts(s, word)
  {
    assert |word| <= |s| ==> s[..|word|][i] == s[i];
  }

  lemma ReadsAsNumber(s: string)
    requires s != [] && (IsDigit(s[0]) || (s[0] == '-' && |s| > 1 && IsDigit(s[1])))
    ensures ParseScalar(s) == ParseNumber(s)
  {
    DiffersFrom(s, "null", 0);
    DiffersFrom(s, "true", 0);
    DiffersFrom(s, "false", 0);
    DiffersFrom(s, "NaN", 0);
    DiffersFrom(s, "Infinity", 0);
    DiffersFrom(s, "-Infinity", if s[0] == '-' then 1 else 0);
  }

  lemma ReadsAsScalar(s: string)
    requires s != [] && s[0] != '"' && s[0] != '{' && s[0] != '['
    ensures ParseValue(s) == ParseScalar(s)
  {
  }

  lemma IntRoundTrip(n: int, rest: string)
    requires Delimited(rest)
    ensures ParseValue(Literal(n) + rest) == Ok((Int(n), rest))
  {
    LiteralStart(n, rest);
    ReadsAsScalar(Literal(n) + rest);
    ReadsAsNumber(Literal(n) + rest);
    LiteralRoundTrip(n, rest);
  }

  lemma LastItem(s: string, v: Json, tail: string)
    requires ParseValue(s) == Ok((v, tail)) && tail != [] && tail[0] == ']'
    ensures ParseItems(s) == Ok(([v], tail[1..]))
  {
  }

  lemma OneMoreItem(s: string, v: Json, tail: string, vs: seq<Json>, rest: string)
    requires ParseValue(s) == Ok((v, tail)) && |tail| > 1 && tail[0] == ',' && !IsSpace(tail[1])
    requires ParseItems(tail[1..]) == Ok((vs, rest))
    ensures ParseItems(s) == Ok(([v] + vs, rest))
  {
    assert SkipSpace(tail) == tail;
    assert SkipSpace(tail[1..]) == tail[1..];
  }

  lemma {:induction false} ItemsRoundTrip(v: Json, i: nat, rest: string)
    requires Canonical(v) && v.List? && i < |v.items|
    ensures ParseItems(PrintItems(v, i) + rest) == Ok((v.items[i..], rest))
    decreases v, 0, |v.items| - i
  {
    var item := v.items[i];
    var text := PrintItems(v, i) + rest;
    if i + 1 == |v.items| {
      Regroup(Print(item), "]", rest);
      ValueRoundTrip(item, "]" + rest);
      LastItem(text, item, "]" + rest);
      assert ("]" + rest)[1..] == rest;
      assert v.items[i..] == [item];
    } else {
      var others := PrintItems(v, i + 1) + rest;
      Regroup(Print(item), "," + PrintItems(v, i + 1), rest);
      Regroup(",", PrintItems(v, i + 1), rest);
      ValueRoundTrip(item, "," + others);
      ItemsRoundTrip(v, i + 1, rest);
      ItemsStart(v, i + 1);
      assert ("," + others)[1..] == others;
      OneMoreItem(text, item, "," + others, v.items[i + 1..], rest);
      assert v.items[i..] == [item] + v.items[i + 1..];
    }
  }

  lemma ListOf(s: string, t: string, vs: seq<Json>, rest: string)
    requires s == "[" + t && t != [] && !IsSpace(t[0]) && t[0] != ']' && ParseItems(t) == Ok((vs, rest))
    ensures ParseValue(s) == Ok((List(vs), rest))
  {
    assert s[1..] == t;
    assert SkipSpace(t) == t;
  }

  lemma {:induction false} ListRoundTrip(v: Json, rest: string)
    requires Canonical(v) && v.List?
    ensures ParseValue(Print(v) + rest) == Ok((v, rest))
    decreases v, 1, 0
  {
    if v.items == [] {
      EmptyRoundTrip(rest);
    } else {
      var text, t := Print(v) + rest, PrintItems(v, 0) + rest;
      assert text == "[" + t;
      ItemsRoundTrip(v, 0, rest);
      ItemsStart(v, 0);
      assert v.items[0..] == v.items;
      ListOf(text, t, v.items, rest);
    }
  }

  lemma ItemsStart(v: Json, i: nat)
    requires Canonical(v) && v.List? && i < |v.items|
    ensures PrintItems(v, i) != [] && !IsSpace(PrintItems(v, i)[0]) && PrintItems(v, i)[0] != ']'
  {
    PrintStart(v.items[i]);
  }

  lemma ObjectOf(t: string, pairs: seq<(string, Json)>, fields: map<string, Json>, rest: string)
    requires t != [] && t[0] == '"'
    requires ParsePairs(t) == Ok((pairs, rest)) && ObjectPairs(pairs) == Ok(fields)
    ensures ParseValue("{" + t) == Ok((Object(fields), rest))
  {
    assert ("{" + t)[1..] == t;
    assert SkipSpace(t) == t;
  }

  lemma EmptyRoundTrip(rest: string)
    ensures ParseValue("{}" + rest) == Ok((Object(map[]), rest))
    ensures ParseValue("[]" + rest) == Ok((List([]), rest))
  {
    assert ("{}" + rest)[1..] == "}" + rest && ("}" + rest)[1..] == rest;
    assert ("[]" + rest)[1..] == "]" + rest && ("]" + rest)[1..] == rest;
  }

  lemma {:induction false} ObjectRoundTrip(v: Json, rest: string)
    requires Canonical(v) && v.Object? && v.fields != map[]
    ensures ParseValue(Print(v) + rest) == Ok((v, rest))
    decreases v, 1, 0
  {
    var keys := SortedTexts(v.fields.Keys);
    KeysAreSorted(v.fields);
    FieldsRoundTrip(v, keys, rest);
    FieldsStart(v, keys);
    SortedFieldsFill(v.fields);
    ObjectOf(PrintFields(v, keys) + rest, PairsOf(v.fields, keys), v.fields, rest);
    ObjectText(v, keys, rest);
  }

  lemma ObjectText(v: Json, keys: seq<string>, rest: string)
    requires Canonical(v) && v.Object? && v.fields != map[] && keys == SortedTexts(v.fields.Keys) && keys != []
    ensures Print(v) + rest == "{" + (PrintFields(v, keys) + rest)
  {
    assert Print(v) == "{" + PrintFields(v, keys);
  }

  lemma SortedFieldsFill(fields: map<string, Json>)
    requires fields != map[]
    ensures ObjectPairs(PairsOf(fields, SortedTexts(fields.Keys))) == Ok(fields)
  {
    var keys := SortedTexts(fields.Keys);
    KeysAreSorted(fields);
    PairsFill(fields, keys);
    assert (map k | k in keys :: fields[k]) == fields;
  }

  lemma FieldsStart(v: Json, keys: seq<string>)
    requires Canonical(v) && v.Object? && keys != [] && forall k | k in keys :: k in v.fields
    ensures PrintFields(v, keys) != [] && PrintFields(v, keys)[0] == '"'
  {
  }

  lemma KeysAreSorted(fields: map<string, Json>)
    requires fields != map[]
    ensures var keys := SortedTexts(fields.Keys);
      keys != [] && Distinct(keys) && forall k :: k in keys <==> k in fields
  {
    var keys := SortedTexts(fields.Keys);
    var k :| k in fields;
    assert k in keys;
    KeysComeBefore(fields.Keys);
    forall i, j | 0 <= i < j < |keys|
      ensures keys[i] != keys[j]
    {
      BeforeIsStrict(keys[i], keys[i], keys[i]);
    }
  }

  lemma QuotedThen(key: string, afterKey: string)
    requires Printable(key)
    ensures var text := Quoted(key) + afterKey;
      text != [] && text[0] == '"' && ParseChars(text[1..]) == Ok((key, afterKey))
  {
    QuotedRoundTrip(key, afterKey);
    assert (Quoted(key) + afterKey)[1..] == Escape(key) + ("\"" + afterKey);
  }

  /** Reading the last `"key":value`, when its value reads well. */
  lemma LastPair(key: string, u: string, v: Json, rest: string)
    requires Printable(key) && u != [] && !IsSpace(u[0])
    requires ParseValue(u) == Ok((v, "}" + rest))
    ensures ParsePairs(Quoted(key) + (":" + u)) == Ok(([(key, v)], rest))
  {
    QuotedThen(key, ":" + u);
    assert (":" + u)[1..] == u;
    assert SkipSpace(":" + u) == ":" + u && SkipSpace(u) == u;
    assert SkipSpace("}" + rest) == "}" + rest && ("}" + rest)[1..] == rest;
  }

  /** Reading a `"key":value` that a comma and more pairs follow. */
  lemma OneMorePair(key: string, u: string, v: Json, others: string, pairs: seq<(string, Json)>, rest: string)
    requires Printable(key) && u != [] && !IsSpace(u[0]) && others != [] && !IsSpace(others[0])
    requires ParseValue(u) == Ok((v, "," + others))
    requires ParsePairs(others) == Ok((pairs, rest))
    ensures ParsePairs(Quoted(key) + (":" + u)) == Ok(([(key, v)] + pairs, rest))
  {
    QuotedThen(key, ":" + u);
    assert (":" + u)[1..] == u;
    assert SkipSpace(":" + u) == ":" + u && SkipSpace(u) == u;
    assert SkipSpace("," + others) == "," + others && ("," + others)[1..] == others && SkipSpace(others) == others;
  }

  lemma {:induction false} FieldsRoundTrip(v: Json, keys: seq<string>, rest: string)
    requires Canonical(v) && v.Object? && keys != [] && forall k | k in keys :: k in v.fields
    ensures ParsePairs(PrintFields(v, keys) + rest) == Ok((PairsOf(v.fields, keys), rest))
    decreases v, 0, |keys|
  {
    assert keys[0] in keys;
    if |keys| == 1 {
      ValueRoundTrip(v.fields[keys[0]], "}" + rest);
      LastField(v, keys, rest);
    } else {
      ValueRoundTrip(v.fields[keys[0]], "," + (PrintFields(v, keys[1..]) + rest));
      FieldsRoundTrip(v, keys[1..], rest);
      OneMoreField(v, keys, rest);
    }
  }

  lemma LastField(v: Json, keys: seq<string>, rest: string)
    requires Canonical(v) && v.Object? && |keys| == 1 && keys[0] in v.fields
    requires ParseValue(Print(v.fields[keys[0]]) + ("}" + rest)) == Ok((v.fields[keys[0]], "}" + rest))
    ensures ParsePairs(PrintFields(v, keys) + rest) == Ok((PairsOf(v.fields, keys), rest))
  {
    var value := v.fields[keys[0]];
    PrintStart(value);
    LastPair(keys[0], Print(value) + ("}" + rest), value, rest);
    RegroupLast(Quoted(keys[0]), ":", Print(value), "}", rest);
    OnePairOf(v.fields, keys);
  }

  lemma OneMoreField(v: Json, keys: seq<string>, rest: string)
    requires Canonical(v) && v.Object? && |keys| > 1 && forall k | k in keys :: k in v.fields
    requires keys[0] in v.fields
    requires var others := PrintFields(v, keys[1..]) + rest;
      && ParseValue(Print(v.fields[keys[0]]) + ("," + others)) == Ok((v.fields[keys[0]], "," + others))
      && ParsePairs(others) == Ok((PairsOf(v.fields, keys[1..]), rest))
    ensures ParsePairs(PrintFields(v, keys) + rest) == Ok((PairsOf(v.fields, keys), rest))
  {
    var value := v.fields[keys[0]];
    var others := PrintFields(v, keys[1..]) + rest;
    PrintStart(value);
    FieldsStart(v, keys[1..]);
    OneMorePair(keys[0], Print(value) + ("," + others), value, others, PairsOf(v.fields, keys[1..]), rest);
    RegroupMany(Quoted(keys[0]), ":", Print(value), ",", PrintFields(v, keys[1..]), rest);
    PairsSplit(v.fields, keys);
  }

  lemma OnePairOf(fields: map<string, Json>, keys: seq<string>)
    requires |keys| == 1 && keys[0] in fields
    ensures PairsOf(fields, keys) == [(keys[0], fields[keys[0]])]
  {
  }

  lemma RegroupLast(a: string, b: string, c: string, d: string, f: string)
    ensures (a + (b + (c + d))) + f == a + (b + (c + (d + f)))
  {
  }

  lemma RegroupMany(a: string, b: string, c: string, d: string, e: string, f: string)
    ensures (a + (b + (c + (d + e)))) + f == a + (b + (c + (d + (e + f))))
  {
  }

  lemma PairsSplit(fields: map<string, Json>, keys: seq<string>)
    requires keys != [] && forall k | k in keys :: k in fields
    ensures keys[0] in fields
    ensures PairsOf(fields, keys) == [(keys[0], fields[keys[0]])] + PairsOf(fields, keys[1..])
    ensures PairsOf(fields, []) == []
  {
    assert keys[0] in keys;
  }

  /** Strict parsing undoes printing, for every value of the profile. */
  lemma RoundTrip(v: Json)
    requires Canonical(v)
    ensures LoadsStrict(Print(v)) == Ok(v)
  {
    PrintStart(v);
    ValueRoundTrip(v, []);
    assert Print(v) + [] == Print(v);
  }

  lemma PrintIsInjective(v: Json, v': Json)
    requires Canonical(v) && Canonical(v') && Print(v) == Print(v')
    ensures v == v'
  {
    RoundTrip(v);
    RoundTrip(v');
  }

  /** The decoder accepts a text exactly when it is the print of an object, and returns that object. */
  lemma DecodesExactlyThePrinted(raw: string, v: Json)
    ensures DecodeCanonicalObject(raw) == Ok(v) <==> v.Object? && Canonical(v) && raw == Print(v)
  {
    if v.Object? && Canonical(v) && raw == Print(v) {
      RoundTrip(v);
    }
  }

  // ---------- the bytes that are hashed ----------

  lemma {:induction false} EscapeIsPrintable(s: string)
    requires Printable(s)
    ensures Printable(Escape(s))
  {
    if s != [] {
      EscapeIsPrintable(s[1..]);
    }
  }

  lemma {:induction false} PrintIsPrintable(v: Json)
    requires Canonical(v)
    ensures Printable(Print(v))
    decreases v, 1, 0
  {
    match v {
      case Null =>
      case Bool(_) =>
      case Int(_) =>
      case Text(s) => EscapeIsPrintable(s);
      case List(items) => if items != [] { ItemsArePrintable(v, 0); }
      case Object(fields) =>
        if fields != map[] {
          KeysAreSorted(fields);
          FieldsArePrintable(v, SortedTexts(fields.Keys));
        }
    }
  }

  lemma {:induction false} ItemsArePrintable(v: Json, i: nat)
    requires Canonical(v) && v.List? && i < |v.items|
    ensures Printable(PrintItems(v, i))
    decreases v, 0, |v.items| - i
  {
    PrintIsPrintable(v.items[i]);
    if i + 1 < |v.items| {
      ItemsArePrintable(v, i + 1);
    }
  }

  lemma {:induction false} FieldsArePrintable(v: Json, keys: seq<string>)
    requires Canonical(v) && v.Object? && keys != [] && forall k | k in keys :: k in v.fields
    ensures Printable(PrintFields(v, keys))
    decreases v, 0, |keys|
  {
    assert keys[0] in keys;
    EscapeIsPrintable(keys[0]);
    PrintIsPrintable(v.fields[keys[0]]);
    if |keys| > 1 {
      FieldsArePrintable(v, keys[1..]);
    }
  }

  lemma LastZeroSplits(a: string, b: string, x: string, y: string)
    requires a + [0 as char] + x == b + [0 as char] + y
    requires Printable(x) && Printable(y) && |a| <= |b|
    ensures a == b && x == y
  {
    var s := a + [0 as char] + x;
    assert s[|b|] == 0 as char;
    assert forall i | |a| < i < |s| :: s[i] == x[i - |a| - 1];
    assert s[..|a|] == a && s[..|b|] == b;
    assert s[|a| + 1..] == x && s[|b| + 1..] == y;
  }

  /**
   Equal hash inputs mean equal labels and equal values, whatever characters the labels hold; each
   is the prefix, the label and the print, with a zero character after the first two.
   */
  lemma DomainBytesAreInjective(domain: string, v: Json, domain': string, v': Json)
    requires Canonical(v) && Canonical(v') && DomainBytes(domain, v) == DomainBytes(domain', v')
    ensures domain == domain' && v == v'
    ensures DomainBytes(domain, v) == "CROSSTRACE-SKETCH" + [0 as char] + domain + [0 as char] + Print(v)
  {
    var bytes := DomainBytes(domain, v);
    var n := |DOMAIN_PREFIX|;
    assert bytes[n..] == domain + [0 as char] + Print(v);
    assert bytes[n..] == domain' + [0 as char] + Print(v');
    PrintIsPrintable(v);
    PrintIsPrintable(v');
    if |domain| <= |domain'| {
      LastZeroSplits(domain, domain', Print(v), Print(v'));
    } else {
      LastZeroSplits(domain', domain, Print(v'), Print(v));
    }
    PrintIsInjective(v, v');
  }
}
