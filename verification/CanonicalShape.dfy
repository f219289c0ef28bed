/** What a canonical text looks like, and which values have one, said in characters and numbers. */
module CanonicalShape {
  import opened CanonicalText
  import opened CanonicalJson

  // ---------- the profile ----------

  /** `x` is `v` or lies somewhere inside it. */
  ghost predicate Occurs(x: Json, v: Json)
    decreases v
  {
    || x == v
    || (v.List? && exists i | 0 <= i < |v.items| :: Occurs(x, v.items[i]))
    || (v.Object? && exists k | k in v.fields :: Occurs(x, v.fields[k]))
  }

  predicate Visible(s: string) {
    forall i | 0 <= i < |s| :: 32 <= s[i] as int <= 126
  }

  /** No fraction, no integer beyond 2^53 - 1 either way, and no character outside printable ASCII. */
  predicate WithinProfile(x: Json) {
    match x
    case Float => false
    case Int(n) => -9_007_199_254_740_991 <= n <= 9_007_199_254_740_991
    case Text(s) => Visible(s)
    case Object(fields) => forall k | k in fields :: Visible(k)
    case _ => true
  }

  ghost predicate AllWithinProfile(v: Json) {
    forall x | Occurs(x, v) :: WithinProfile(x)
  }

  /** A value is in the profile exactly if everything inside it is. */
  lemma {:induction false} CanonicalMeaning(v: Json)
    ensures Canonical(v) <==> AllWithinProfile(v)
    decreases v
  {
    match v {
      case List(items) =>
        forall i | 0 <= i < |items|
          ensures Canonical(items[i]) <==> AllWithinProfile(items[i])
        {
          CanonicalMeaning(items[i]);
        }
        InsideList(v);
      case Object(fields) =>
        forall k | k in fields
          ensures Canonical(fields[k]) <==> AllWithinProfile(fields[k])
        {
          CanonicalMeaning(fields[k]);
        }
        InsideObject(v);
      case _ =>
        assert Occurs(v, v);
    }
  }

  lemma InsideList(v: Json)
    requires v.List?
    ensures AllWithinProfile(v) <==> forall i | 0 <= i < |v.items| :: AllWithinProfile(v.items[i])
  {
    forall x, i | 0 <= i < |v.items| && Occurs(x, v.items[i])
      ensures Occurs(x, v)
    {
    }
    assert Occurs(v, v);
  }

  lemma InsideObject(v: Json)
    requires v.Object?
    ensures AllWithinProfile(v) <==>
            (forall k | k in v.fields :: Visible(k)) && forall k | k in v.fields :: AllWithinProfile(v.fields[k])
  {
    forall x, k | k in v.fields && Occurs(x, v.fields[k])
      ensures Occurs(x, v)
    {
    }
    assert Occurs(v, v);
  }

  // ---------- the print ----------

  /** The parts with one comma between neighbours. */
  function Joined(parts: seq<string>): string {
    if parts == [] then [] else if |parts| == 1 then parts[0] else parts[0] + "," + Joined(parts[1..])
  }

  function ItemsPrinted(v: Json, i: nat): seq<string>
    requires Canonical(v) && v.List? && i <= |v.items|
  {
    seq(|v.items| - i, j requires 0 <= j < |v.items| - i => Print(v.items[i + j]))
  }

  function FieldPrinted(v: Json, key: string): string
    requires Canonical(v) && v.Object? && key in v.fields
  {
    "\"" + Escape(key) + "\":" + Print(v.fields[key])
  }

  function FieldsPrinted(v: Json, keys: seq<string>): seq<string>
    requires Canonical(v) && v.Object? && forall k | k in keys :: k in v.fields
  {
    seq(|keys|, j requires 0 <= j < |keys| => FieldPrinted(v, keys[j]))
  }

  lemma {:induction false} ItemsAreJoined(v: Json, i: nat)
    requires Canonical(v) && v.List? && i < |v.items|
    ensures PrintItems(v, i) == Joined(ItemsPrinted(v, i)) + "]"
    decreases |v.items| - i
  {
    var parts := ItemsPrinted(v, i);
    assert parts[0] == Print(v.items[i]);
    if i + 1 < |v.items| {
      ItemsAreJoined(v, i + 1);
      assert parts[1..] == ItemsPrinted(v, i + 1);
      CommaBetween(Print(v.items[i]), Joined(parts[1..]), "]");
    }
  }

  lemma CommaBetween(a: string, b: string, end: string)
    ensures a + ("," + (b + end)) == (a + "," + b) + end
  {
  }

  lemma OneField(v: Json, key: string, rest: string)
    requires Canonical(v) && v.Object? && key in v.fields
    ensures Quoted(key) + (":" + (Print(v.fields[key]) + rest)) == FieldPrinted(v, key) + rest
  {
    QuoteThenColon(Escape(key), Print(v.fields[key]), rest);
  }

  lemma QuoteThenColon(e: string, p: string, rest: string)
    ensures ("\"" + e + "\"") + (":" + (p + rest)) == ("\"" + e + "\":" + p) + rest
  {
    assert "\":" == "\"" + ":";
  }

  lemma {:induction false} FieldsAreJoined(v: Json, keys: seq<string>)
    requires Canonical(v) && v.Object? && keys != [] && forall k | k in keys :: k in v.fields
    ensures PrintFields(v, keys) == Joined(FieldsPrinted(v, keys)) + "}"
    decreases |keys|
  {
    var parts := FieldsPrinted(v, keys);
    assert keys[0] in keys && parts[0] == FieldPrinted(v, keys[0]);
    if |keys| == 1 {
      OneField(v, keys[0], "}");
    } else {
      FieldsAreJoined(v, keys[1..]);
      assert parts[1..] == FieldsPrinted(v, keys[1..]);
      OneField(v, keys[0], "," + PrintFields(v, keys[1..]));
      CommaBetween(parts[0], Joined(parts[1..]), "}");
    }
  }

  /** How words, texts and lists are printed; numbers are signed numerals, which `NumeralMeaning` fixes, texts are escaped as `EscapeMeaning` says. */
  lemma PrintedValue(v: Json)
    requires Canonical(v)
    ensures match v
            case Null => Print(v) == "null"
            case Bool(b) => Print(v) == if b then "true" else "false"
            case Int(n) => if n < 0 then Print(v) == "-" + Numeral(-n) else Print(v) == Numeral(n)
            case Text(s) => Print(v) == "\"" + Escape(s) + "\""
            case List(items) => Print(v) == "[" + Joined(ItemsPrinted(v, 0)) + "]"
            case Object(_) => true
  {
    if v.List? {
      if v.items == [] {
        assert "[" + Joined([]) + "]" == "[]";
      } else {
        ItemsAreJoined(v, 0);
        Enclosed("[", Joined(ItemsPrinted(v, 0)), "]");
      }
    }
  }

  lemma Enclosed(open: string, inside: string, close: string)
    ensures open + (inside + close) == open + inside + close
  {
  }

  /**
   How an object is printed: between braces, its fields in the ascending order of their keys, one
   comma between neighbours, each as the quoted key, a colon and the printed value, and nothing else.
   */
  lemma PrintedObject(v: Json) returns (keys: seq<string>)
    requires Canonical(v) && v.Object?
    ensures forall k :: k in keys <==> k in v.fields
    ensures forall i, j | 0 <= i < j < |keys| :: Precedes(keys[i], keys[j])
    ensures Print(v) == "{" + Joined(FieldsPrinted(v, keys)) + "}"
  {
    keys := SortedTexts(v.fields.Keys);
    SortedTextsAscend(v.fields.Keys);
    if v.fields == map[] {
      assert keys == [];
      assert "{" + Joined([]) + "}" == "{}";
    } else {
      KeysAreSorted(v.fields);
      FieldsAreJoined(v, keys);
      Enclosed("{", Joined(FieldsPrinted(v, keys)), "}");
    }
  }
}
