/** The parser accepts exactly the grammar: every spelling is read back, and whatever is read was a spelling. */
module CanonicalReading {
  import opened Common
  import opened CanonicalText
  import opened CanonicalJson
  import opened CanonicalGrammar
  import opened CanonicalShape

  // ---------- every spelling is read ----------

  lemma {:induction false} SkipsOver(space: string, s: string)
    requires AllSpace(space) && (s == [] || !IsSpace(s[0]))
    ensures SkipSpace(space + s) == s
  {
    if space == [] {
      assert space + s == s;
    } else {
      assert (space + s)[1..] == space[1..] + s;
      SkipsOver(space[1..], s);
    }
  }

  /** What may follow a value. */
  predicate Follows(rest: string) {
    rest == [] || IsSpace(rest[0]) || rest[0] in {',', ']', '}'}
  }

  lemma AfterSpace(space: string, s: string)
    requires AllSpace(space) && s != [] && s[0] in {',', ']', '}'}
    ensures Follows(space + s) && SkipSpace(space + s) == s
  {
    SkipsOver(space, s);
    assert space == [] ==> space + s == s;
  }

  lemma HexMeaning(c: char)
    ensures HexValue(c) == if IsHex(c) then Some(HexOf(c)) else None
  {
  }

  /** The parser's own reading of the three ways to write a character is the grammar's. */
  lemma LongMeaning(hex: string)
    requires |hex| == 4
    ensures LongEscape(hex).Ok? <==> Long(hex).Ok()
    ensures Long(hex).Ok() ==> LongEscape(hex) == Ok(Long(hex).Meant())
  {
    HexMeaning(hex[0]);
    HexMeaning(hex[1]);
    HexMeaning(hex[2]);
    HexMeaning(hex[3]);
  }

  lemma ShortMeaning(c: char)
    ensures ShortEscape(c) == if Short(c).Ok() then Some(Short(c).Meant()) else None
  {
  }

  lemma ShortRead(c: char, tail: string)
    requires Short(c).Ok()
    ensures ParseChars(['\\', c] + tail) == Prefixed(Short(c).Meant(), ParseChars(tail))
  {
    var s := ['\\', c] + tail;
    ShortMeaning(c);
    assert s[1] == c && s[2..] == tail;
  }

  lemma LongRead(hex: string, tail: string)
    requires Long(hex).Ok()
    ensures ParseChars("\\u" + hex + tail) == Prefixed(Long(hex).Meant(), ParseChars(tail))
  {
    var s := "\\u" + hex + tail;
    LongMeaning(hex);
    assert s[1] == 'u' && s[2..6] == hex && s[6..] == tail;
  }

  lemma GlyphRead(g: Glyph, tail: string)
    requires g.Ok()
    ensures ParseChars(g.Written() + tail) == Prefixed(g.Meant(), ParseChars(tail))
  {
    match g {
      case Plain(c) => ReadOne(c, tail);
      case Short(c) => ShortRead(c, tail);
      case Long(hex) => LongRead(hex, tail);
    }
  }

  lemma {:induction false} GlyphsRead(glyphs: seq<Glyph>, rest: string)
    requires AllOk(glyphs)
    ensures ParseChars(GlyphsWritten(glyphs) + ("\"" + rest)) == Ok((GlyphsMeant(glyphs), rest))
  {
    if glyphs == [] {
      assert GlyphsWritten(glyphs) + ("\"" + rest) == ['"'] + rest;
      assert (['"'] + rest)[1..] == rest;
    } else {
      GlyphsRead(glyphs[1..], rest);
      GlyphRead(glyphs[0], GlyphsWritten(glyphs[1..]) + ("\"" + rest));
      Regroup(glyphs[0].Written(), GlyphsWritten(glyphs[1..]), "\"" + rest);
    }
  }

  lemma DigitsRead(digits: string, rest: string)
    requires Whole(digits) && Follows(rest)
    ensures ParseUnsigned(digits + rest) == Ok((Int(ValueOf(digits)), rest))
  {
    var t := digits + rest;
    assert t[0] == digits[0] && t[..|digits|] == digits && t[|digits|..] == rest;
    RunStops(digits, rest);
    assert rest[0..] == rest;
  }

  lemma DigitFirst(digits: string, rest: string)
    requires Whole(digits)
    ensures digits + rest != [] && IsDigit((digits + rest)[0])
  {
  }

  lemma PlainNumberRead(digits: string, rest: string)
    requires Whole(digits) && Follows(rest)
    ensures ParseValue(digits + rest) == Ok((Int(ValueOf(digits)), rest))
  {
    DigitFirst(digits, rest);
    DigitsRead(digits, rest);
    Signed(digits + rest);
    ReadsAsScalar(digits + rest);
    ReadsAsNumber(digits + rest);
  }

  lemma MinusFirst(t: string)
    requires t != [] && IsDigit(t[0])
    ensures ("-" + t)[0] == '-' && ("-" + t)[1] == t[0]
  {
  }

  lemma MinusNumberRead(digits: string, rest: string)
    requires Whole(digits) && Follows(rest)
    ensures ParseValue("-" + (digits + rest)) == Ok((Int(-ValueOf(digits)), rest))
  {
    DigitFirst(digits, rest);
    DigitsRead(digits, rest);
    Signed(digits + rest);
    MinusFirst(digits + rest);
    ReadsAsScalar("-" + (digits + rest));
    ReadsAsNumber("-" + (digits + rest));
  }

  lemma NumberRead(minus: bool, digits: string, rest: string)
    requires Whole(digits) && Follows(rest)
    ensures ParseValue(((if minus then "-" else "") + digits) + rest) ==
            Ok((Int(if minus then -ValueOf(digits) else ValueOf(digits)), rest))
  {
    if minus {
      Regroup("-", digits, rest);
      MinusNumberRead(digits, rest);
    } else {
      NothingBefore(digits);
      PlainNumberRead(digits, rest);
    }
  }

  lemma TreeStart(t: Tree)
    requires TreeOk(t)
    ensures Written(t) != [] && !IsSpace(Written(t)[0]) && Written(t)[0] != ']' && Written(t)[0] != '}'
  {
  }

  lemma EmptyRead(space: string, rest: string)
    requires AllSpace(space)
    ensures ParseValue("[" + (space + "]") + rest) == Ok((List([]), rest))
    ensures ParseValue("{" + (space + "}") + rest) == Ok((Object(map[]), rest))
  {
    var s, s' := "[" + (space + "]") + rest, "{" + (space + "}") + rest;
    assert s[1..] == space + ("]" + rest) && s'[1..] == space + ("}" + rest);
    AfterSpace(space, "]" + rest);
    AfterSpace(space, "}" + rest);
    assert ("]" + rest)[1..] == rest && ("}" + rest)[1..] == rest;
  }

  lemma FlatTreeRead(t: Tree, rest: string)
    requires TreeOk(t) && !t.FullList? && !t.FullObject? && Follows(rest)
    ensures ParseValue(Written(t) + rest) == Ok((Meant(t), rest))
  {
    match t {
      case NullWord => WordsRoundTrip(rest);
      case BoolWord(_) => WordsRoundTrip(rest);
      case Number(minus, digits) =>
        NumberRead(minus, digits, rest);
        ValueMeaning(digits);
      case Literal(glyphs) => LiteralRead(glyphs, rest);
      case EmptyList(space) => EmptyRead(space, rest);
      case EmptyObject(space) => EmptyRead(space, rest);
    }
  }

  lemma {:induction false} TreeRead(t: Tree, rest: string)
    requires TreeOk(t) && Follows(rest)
    ensures ParseValue(Written(t) + rest) == Ok((Meant(t), rest))
    decreases t, 1
  {
    if t.FullList? {
      ItemsRead(t.items, rest);
      ListRead(t.items, rest);
    } else if t.FullObject? {
      MembersRead(t.members, rest);
      ObjectRead(t.members, rest);
    } else {
      FlatTreeRead(t, rest);
    }
  }

  lemma QuoteRead(t: string, chars: string, rest: string)
    requires ParseChars(t) == Ok((chars, rest))
    ensures ParseValue("\"" + t) == Ok((Text(chars), rest))
  {
    assert ("\"" + t)[1..] == t;
  }

  lemma LiteralRead(glyphs: seq<Glyph>, rest: string)
    requires AllOk(glyphs)
    ensures ParseValue("\"" + (GlyphsWritten(glyphs) + "\"") + rest) == Ok((Text(GlyphsMeant(glyphs)), rest))
  {
    GlyphsRead(glyphs, rest);
    QuoteRead(GlyphsWritten(glyphs) + ("\"" + rest), GlyphsMeant(glyphs), rest);
    Regroup("\"", GlyphsWritten(glyphs) + "\"", rest);
    Regroup(GlyphsWritten(glyphs), "\"", rest);
  }

  lemma ListRead(items: Items, rest: string)
    requires ItemsOk(items) && ParseItems(SkipSpace(ItemsWritten(items) + rest)) == Ok((ItemsMeant(items), rest))
    ensures ParseValue("[" + ItemsWritten(items) + rest) == Ok((List(ItemsMeant(items)), rest))
  {
    var s := "[" + ItemsWritten(items) + rest;
    var tail := items.after + match items case LastOf(_, _, _) => "]" case MoreOf(_, _, _, others) => "," + ItemsWritten(others);
    TreeStart(items.item);
    Regroup("[", ItemsWritten(items), rest);
    assert s[1..] == ItemsWritten(items) + rest;
    ItemSkips(items.before, items.item, tail, rest);
  }

  /** Skipping the space before a value leads to the value. */
  lemma ItemSkips(before: string, item: Tree, tail: string, rest: string)
    requires AllSpace(before) && TreeOk(item)
    ensures SkipSpace((before + (Written(item) + tail)) + rest) == Written(item) + (tail + rest)
    ensures (Written(item) + (tail + rest))[0] == Written(item)[0]
  {
    TreeStart(item);
    Regroup(before, Written(item) + tail, rest);
    Regroup(Written(item), tail, rest);
    SkipsOver(before, Written(item) + (tail + rest));
  }

  lemma {:induction false} ItemsRead(items: Items, rest: string)
    requires ItemsOk(items)
    ensures ParseItems(SkipSpace(ItemsWritten(items) + rest)) == Ok((ItemsMeant(items), rest))
    decreases items, 0
  {
    match items {
      case LastOf(before, item, after) =>
        ItemSkips(before, item, after + "]", rest);
        Regroup(after, "]", rest);
        AfterSpace(after, "]" + rest);
        TreeRead(item, after + ("]" + rest));
        LastItemRead(Written(item) + (after + ("]" + rest)), Meant(item), after + ("]" + rest), rest);
        assert ItemsMeant(items) == [Meant(item)];
      case MoreOf(before, item, after, others) =>
        ItemSkips(before, item, after + ("," + ItemsWritten(others)), rest);
        Regroup(after, "," + ItemsWritten(others), rest);
        Regroup(",", ItemsWritten(others), rest);
        AfterSpace(after, "," + (ItemsWritten(others) + rest));
        TreeRead(item, after + ("," + (ItemsWritten(others) + rest)));
        ItemsRead(others, rest);
        MoreItemsRead(Written(item) + (after + ("," + (ItemsWritten(others) + rest))), Meant(item),
                      after + ("," + (ItemsWritten(others) + rest)), ItemsWritten(others) + rest, ItemsMeant(others), rest);
    }
  }

  lemma LastItemRead(s: string, v: Json, tail: string, rest: string)
    requires ParseValue(s) == Ok((v, tail)) && SkipSpace(tail) == "]" + rest
    ensures ParseItems(s) == Ok(([v], rest))
  {
    assert ("]" + rest)[1..] == rest;
  }

  lemma MoreItemsRead(s: string, v: Json, tail: string, others: string, vs: seq<Json>, rest: string)
    requires ParseValue(s) == Ok((v, tail)) && SkipSpace(tail) == "," + others
    requires ParseItems(SkipSpace(others)) == Ok((vs, rest))
    ensures ParseItems(s) == Ok(([v] + vs, rest))
  {
    assert ("," + others)[1..] == others;
  }

  lemma ObjectRead(members: Members, rest: string)
    requires MembersOk(members) && ObjectPairs(PairsMeant(members)).Ok?
    requires ParsePairs(SkipSpace(MembersWritten(members) + rest)) == Ok((PairsMeant(members), rest))
    ensures ParseValue("{" + MembersWritten(members) + rest) == Ok((Object(ObjectPairs(PairsMeant(members)).value), rest))
  {
    var s := "{" + MembersWritten(members) + rest;
    Regroup("{", MembersWritten(members), rest);
    assert s[1..] == MembersWritten(members) + rest;
    var t := SkipSpace(s[1..]);
    assert t != [] && t[0] == '"';
  }

  /** The text of the members up to the end of the first value, and what follows it. */
  function MembersTail(members: Members): string {
    match members case LastMember(_, _, _, _) => "}" case MoreMembers(_, _, _, _, others) => "," + MembersWritten(others)
  }

  /** How the parser sees one member: quote, key, quote, space, colon, space, value, space, end. */
  function Behind(members: Members, rest: string): string {
    members.value.before + (Written(members.value.item) + (members.value.after + (MembersTail(members) + rest)))
  }

  lemma MembersSplit(members: Members, rest: string)
    ensures MembersWritten(members) + rest ==
            members.before + ("\"" + (GlyphsWritten(members.key) + ("\"" + (members.gap + (":" + Behind(members, rest))))))
  {
    var f := members.value;
    var e := MembersTail(members);
    Regroup(f.after, e, rest);
    Regroup(Written(f.item), f.after + e, rest);
    Regroup(f.before, Written(f.item) + (f.after + e), rest);
    RegroupKey(members.before, GlyphsWritten(members.key), members.gap, f.before + (Written(f.item) + (f.after + e)), rest);
  }

  lemma RegroupKey(before: string, key: string, gap: string, e: string, rest: string)
    ensures (before + ("\"" + (key + ("\"" + (gap + (":" + e)))))) + rest ==
            before + ("\"" + (key + ("\"" + (gap + (":" + (e + rest))))))
  {
    Regroup(":", e, rest);
    Regroup(gap, ":" + e, rest);
    Regroup("\"", gap + (":" + e), rest);
    Regroup(key, "\"" + (gap + (":" + e)), rest);
    Regroup("\"", key + ("\"" + (gap + (":" + e))), rest);
    Regroup(before, "\"" + (key + ("\"" + (gap + (":" + e)))), rest);
  }

  /** Reading a key and its colon. */
  lemma KeyRead(key: seq<Glyph>, gap: string, behind: string)
    requires AllOk(key) && AllSpace(gap)
    ensures var s := "\"" + (GlyphsWritten(key) + ("\"" + (gap + (":" + behind))));
      && s[0] == '"' && ParseChars(s[1..]) == Ok((GlyphsMeant(key), gap + (":" + behind)))
      && SkipSpace(gap + (":" + behind)) == ":" + behind && (":" + behind)[1..] == behind
  {
    var s := "\"" + (GlyphsWritten(key) + ("\"" + (gap + (":" + behind))));
    GlyphsRead(key, gap + (":" + behind));
    assert s[1..] == GlyphsWritten(key) + ("\"" + (gap + (":" + behind)));
    SkipsOver(gap, ":" + behind);
  }

  lemma {:induction false} MembersRead(members: Members, rest: string)
    requires MembersOk(members)
    ensures SkipSpace(MembersWritten(members) + rest) != [] && SkipSpace(MembersWritten(members) + rest)[0] == '"'
    ensures ParsePairs(SkipSpace(MembersWritten(members) + rest)) == Ok((PairsMeant(members), rest))
    decreases members, 0
  {
    var f := members.value;
    var behind := Behind(members, rest);
    var s := "\"" + (GlyphsWritten(members.key) + ("\"" + (members.gap + (":" + behind))));
    MembersSplit(members, rest);
    SkipsOver(members.before, s);
    KeyRead(members.key, members.gap, behind);
    TreeStart(f.item);
    var tail := f.after + (MembersTail(members) + rest);
    SkipsOver(f.before, Written(f.item) + tail);
    match members {
      case LastMember(_, _, _, _) =>
        AfterSpace(f.after, "}" + rest);
        TreeRead(f.item, tail);
        LastMemberRead(s, GlyphsMeant(members.key), members.gap + (":" + behind), behind, Meant(f.item), tail, rest);
        assert PairsMeant(members) == [(GlyphsMeant(members.key), Meant(f.item))];
      case MoreMembers(_, _, _, _, others) =>
        Regroup(",", MembersWritten(others), rest);
        AfterSpace(f.after, "," + (MembersWritten(others) + rest));
        TreeRead(f.item, tail);
        MembersRead(others, rest);
        MoreMembersRead(s, GlyphsMeant(members.key), members.gap + (":" + behind), behind, Meant(f.item), tail,
                        MembersWritten(others) + rest, PairsMeant(others), rest);
    }
  }

  lemma LastMemberRead(s: string, key: string, afterKey: string, behind: string, v: Json, tail: string, rest: string)
    requires s != [] && s[0] == '"' && ParseChars(s[1..]) == Ok((key, afterKey))
    requires SkipSpace(afterKey) == ":" + behind && ParseValue(SkipSpace(behind)) == Ok((v, tail))
    requires SkipSpace(tail) == "}" + rest
    ensures ParsePairs(s) == Ok(([(key, v)], rest))
  {
    assert (":" + behind)[1..] == behind && ("}" + rest)[1..] == rest;
  }

  lemma MoreMembersRead(s: string, key: string, afterKey: string, behind: string, v: Json, tail: string,
                        others: string, pairs: seq<(string, Json)>, rest: string)
    requires s != [] && s[0] == '"' && ParseChars(s[1..]) == Ok((key, afterKey))
    requires SkipSpace(afterKey) == ":" + behind && ParseValue(SkipSpace(behind)) == Ok((v, tail))
    requires SkipSpace(tail) == "," + others && ParsePairs(SkipSpace(others)) == Ok((pairs, rest))
    ensures ParsePairs(s) == Ok(([(key, v)] + pairs, rest))
  {
    var t, u := SkipSpace(afterKey), SkipSpace(tail);
    assert t[0] == ':' && t[1..] == behind;
    assert u[0] == ',' && u[1..] == others;
    ParsePairsStep(s, key, t, v, u);
  }

  /** One round of `ParsePairs` that a comma ends. */
  lemma ParsePairsStep(s: string, key: string, t: string, v: Json, u: string)
    requires s != [] && s[0] == '"' && ParseChars(s[1..]).Ok? && ParseChars(s[1..]).value.0 == key
    requires t == SkipSpace(ParseChars(s[1..]).value.1) && t != [] && t[0] == ':'
    requires ParseValue(SkipSpace(t[1..])).Ok? && ParseValue(SkipSpace(t[1..])).value.0 == v
    requires u == SkipSpace(ParseValue(SkipSpace(t[1..])).value.1) && u != [] && u[0] == ','
    requires ParsePairs(SkipSpace(u[1..])).Ok?
    ensures ParsePairs(s) ==
            Ok(([(key, v)] + ParsePairs(SkipSpace(u[1..])).value.0, ParsePairs(SkipSpace(u[1..])).value.1))
  {
  }

  /** A spelling of a value is read as that value, or refused because the value is outside the profile. */
  lemma SpellingsAreRead(raw: string, v: Json)
    requires Spells(raw, v)
    ensures LoadsStrict(raw) == if Canonical(v) then Ok(v) else Err(OutsideProfile)
  {
    var before, t, after :|
      AllSpace(before) && AllSpace(after) && TreeOk(t) && raw == before + (Written(t) + after) && Meant(t) == v;
    TreeStart(t);
    SkipsOver(before, Written(t) + after);
    TreeRead(t, after);
    SkipsOver(after, []);
    assert after + [] == after;
  }

  // ---------- whatever is read was a spelling ----------

  lemma {:induction false} SpaceSkipped(s: string) returns (space: string)
    ensures AllSpace(space) && s == space + SkipSpace(s)
  {
    if s != [] && IsSpace(s[0]) {
      var more := SpaceSkipped(s[1..]);
      space := [s[0]] + more;
      assert s == [s[0]] + s[1..];
    } else {
      space := [];
    }
  }

  lemma {:induction false} GlyphsOf(s: string) returns (glyphs: seq<Glyph>)
    requires ParseChars(s).Ok?
    ensures AllOk(glyphs) && GlyphsMeant(glyphs) == ParseChars(s).value.0
    ensures s == GlyphsWritten(glyphs) + ("\"" + ParseChars(s).value.1)
    decreases |s|
  {
    if s[0] == '"' {
      glyphs := [];
      assert s == ['"'] + s[1..];
    } else {
      var g := GlyphAt(s);
      var n := |g.Written()|;
      var more := GlyphsOf(s[n..]);
      glyphs := [g] + more;
      GlyphRead(g, s[n..]);
      assert glyphs[1..] == more;
      Regroup(g.Written(), GlyphsWritten(more), "\"" + ParseChars(s).value.1);
    }
  }

  /** The first character that a string literal's rest spells, if it does not end there. */
  lemma GlyphAt(s: string) returns (g: Glyph)
    requires ParseChars(s).Ok? && s[0] != '"'
    ensures g.Ok() && g.Written() != [] && |g.Written()| <= |s| && s == g.Written() + s[|g.Written()|..]
    ensures ParseChars(s[|g.Written()|..]).Ok?
  {
    if s[0] != '\\' {
      g := Plain(s[0]);
    } else if s[1] == 'u' {
      g := Long(s[2..6]);
      LongMeaning(s[2..6]);
      assert s[..6] == g.Written();
    } else {
      g := Short(s[1]);
      ShortMeaning(s[1]);
      assert s[..2] == g.Written();
    }
    assert s == s[..|g.Written()|] + s[|g.Written()|..];
  }

  lemma {:induction false} RunIsDigits(s: string)
    ensures forall i | 0 <= i < Run(s) :: IsDigit(s[i])
  {
    if s != [] && IsDigit(s[0]) {
      RunIsDigits(s[1..]);
      forall i | 0 <= i < Run(s)
        ensures IsDigit(s[i])
      {
        assert i > 0 ==> s[i] == s[1..][i - 1];
      }
    }
  }

  /** The digits of a number literal without its sign. */
  function DigitsAt(t: string): string {
    if t != [] && t[0] == '0' then "0" else t[..Run(t)]
  }

  lemma DigitsAreWhole(t: string)
    requires t != [] && IsDigit(t[0])
    ensures Whole(DigitsAt(t)) && t == DigitsAt(t) + t[|DigitsAt(t)|..]
  {
    RunIsDigits(t);
    var n := |DigitsAt(t)|;
    assert t[..n] == DigitsAt(t);
    assert t == t[..n] + t[n..];
  }

  lemma IntegerHasDigitsOnly(t: string)
    requires ParseUnsigned(t).Ok? && ParseUnsigned(t).value.0.Int?
    ensures t != [] && IsDigit(t[0])
    ensures ParseUnsigned(t).value == (Int(ValueOf(DigitsAt(t))), t[|DigitsAt(t)|..])
  {
    var n := |DigitsAt(t)|;
    assert t[..n] == DigitsAt(t);
    assert t[n..][0..] == t[n..];
  }

  lemma UnsignedOf(t: string) returns (digits: string)
    requires ParseUnsigned(t).Ok? && ParseUnsigned(t).value.0.Int?
    ensures Whole(digits) && t == digits + ParseUnsigned(t).value.1
    ensures ParseUnsigned(t).value.0 == Int(ValueOf(digits))
  {
    IntegerHasDigitsOnly(t);
    DigitsAreWhole(t);
    digits := DigitsAt(t);
  }

  lemma NumberOf(s: string) returns (minus: bool, digits: string)
    requires ParseNumber(s).Ok? && ParseNumber(s).value.0.Int?
    ensures Whole(digits) && s == ((if minus then "-" else "") + digits) + ParseNumber(s).value.1
    ensures ParseNumber(s).value.0 == Int(if minus then -ValueOf(digits) else ValueOf(digits))
  {
    minus := s != [] && s[0] == '-';
    if minus {
      digits := UnsignedOf(s[1..]);
      assert s == "-" + s[1..];
      Regroup("-", digits, ParseUnsigned(s[1..]).value.1);
    } else {
      digits := UnsignedOf(s);
      NothingBefore(digits);
    }
  }

  lemma ScalarOf(s: string) returns (t: Tree)
    requires ParseScalar(s).Ok? && ParseScalar(s).value.0 != Float
    ensures TreeOk(t) && s == Written(t) + ParseScalar(s).value.1 && Meant(t) == ParseScalar(s).value.0
  {
    if Starts(s, "null") {
      t := NullWord;
    } else if Starts(s, "true") {
      t := BoolWord(true);
    } else if Starts(s, "false") {
      t := BoolWord(false);
    } else {
      var minus, digits := NumberOf(s);
      t := Number(minus, digits);
      ValueMeaning(digits);
    }
  }

  lemma {:induction false} TreeOf(s: string) returns (t: Tree)
    requires ParseValue(s).Ok? && Canonical(ParseValue(s).value.0)
    ensures TreeOk(t) && s == Written(t) + ParseValue(s).value.1 && Meant(t) == ParseValue(s).value.0
    decreases |s|, 1
  {
    if s[0] == '"' {
      t := LiteralOf(s);
    } else if s[0] == '{' {
      t := ObjectTreeOf(s);
    } else if s[0] == '[' {
      t := ListTreeOf(s);
    } else {
      ReadsAsScalar(s);
      t := ScalarOf(s);
    }
  }

  lemma {:induction false} ObjectTreeOf(s: string) returns (t: Tree)
    requires s != [] && s[0] == '{' && ParseValue(s).Ok? && Canonical(ParseValue(s).value.0)
    ensures TreeOk(t) && s == Written(t) + ParseValue(s).value.1 && Meant(t) == ParseValue(s).value.0
    decreases |s|, 0
  {
    var space := SpaceSkipped(s[1..]);
    var u := SkipSpace(s[1..]);
    assert s == "{" + (space + u);
    if u != [] && u[0] == '}' {
      t := EmptyObject(space);
      assert u == "}" + u[1..];
      RegroupEmpty("{", space, "}", u[1..]);
    } else {
      ObjectValues(u);
      var members := MembersOf(u);
      t := FullObject(members.(before := space));
      MembersBefore(members, space);
      RegroupFull("{", space, MembersWritten(members), ParseValue(s).value.1);
    }
  }

  lemma {:induction false} ListTreeOf(s: string) returns (t: Tree)
    requires s != [] && s[0] == '[' && ParseValue(s).Ok? && Canonical(ParseValue(s).value.0)
    ensures TreeOk(t) && s == Written(t) + ParseValue(s).value.1 && Meant(t) == ParseValue(s).value.0
    decreases |s|, 0
  {
    var space := SpaceSkipped(s[1..]);
    var u := SkipSpace(s[1..]);
    assert s == "[" + (space + u);
    if u != [] && u[0] == ']' {
      t := EmptyList(space);
      assert u == "]" + u[1..];
      RegroupEmpty("[", space, "]", u[1..]);
    } else {
      var items := ItemsOf(u);
      t := FullList(items.(before := space));
      ItemsBefore(items, space);
      RegroupFull("[", space, ItemsWritten(items), ParseValue(s).value.1);
    }
  }

  lemma LiteralOf(s: string) returns (t: Tree)
    requires ParseValue(s).Ok? && s[0] == '"'
    ensures TreeOk(t) && s == Written(t) + ParseValue(s).value.1 && Meant(t) == ParseValue(s).value.0
  {
    var glyphs := GlyphsOf(s[1..]);
    var rest := ParseChars(s[1..]).value.1;
    t := Literal(glyphs);
    assert s == "\"" + s[1..];
    Regroup("\"", GlyphsWritten(glyphs) + "\"", rest);
    Regroup(GlyphsWritten(glyphs), "\"", rest);
  }

  lemma RegroupEmpty(open: string, space: string, close: string, rest: string)
    ensures open + (space + (close + rest)) == (open + (space + close)) + rest
  {
  }

  lemma RegroupFull(open: string, space: string, body: string, rest: string)
    ensures open + (space + (body + rest)) == (open + (space + body)) + rest
  {
  }

  /** Every value among the pairs of a canonical object is canonical. */
  lemma ObjectValues(u: string)
    requires ParsePairs(u).Ok? && ObjectPairs(ParsePairs(u).value.0).Ok?
    requires Canonical(Object(ObjectPairs(ParsePairs(u).value.0).value))
    ensures forall p | p in ParsePairs(u).value.0 :: Canonical(p.1)
  {
    var pairs := ParsePairs(u).value.0;
    PairsMeaning(pairs);
    forall p | p in pairs
      ensures Canonical(p.1)
    {
      assert (p.0, p.1) in pairs;
      assert p.0 in ObjectPairs(pairs).value && ObjectPairs(pairs).value[p.0] == p.1;
    }
  }

  lemma ItemsBefore(items: Items, space: string)
    requires ItemsOk(items) && items.before == [] && AllSpace(space)
    ensures var more := items.(before := space);
      ItemsOk(more) && ItemsWritten(more) == space + ItemsWritten(items) && ItemsMeant(more) == ItemsMeant(items)
  {
    NothingBefore(ItemsBody(items));
  }

  lemma MembersBefore(members: Members, space: string)
    requires MembersOk(members) && members.before == [] && AllSpace(space)
    ensures var more := members.(before := space);
      MembersOk(more) && MembersWritten(more) == space + MembersWritten(members) && PairsMeant(more) == PairsMeant(members)
  {
    NothingBefore(MembersBody(members));
  }

  lemma NothingBefore(body: string)
    ensures [] + body == body
  {
  }

  /** Reading an array element found a value and, past spaces, what ends it. */
  lemma ItemParts(s: string) returns (after: string, u: string)
    requires ParseItems(s).Ok?
    ensures ParseValue(s).Ok? && AllSpace(after) && ParseValue(s).value.1 == after + u
    ensures |u| < |s| && u != [] && (u[0] == ']' || u[0] == ',')
    ensures u[0] == ']' ==> ParseItems(s).value == ([ParseValue(s).value.0], u[1..])
    ensures u[0] == ',' ==> var more := ParseItems(SkipSpace(u[1..]));
      more.Ok? && ParseItems(s).value == ([ParseValue(s).value.0] + more.value.0, more.value.1)
  {
    after := SpaceSkipped(ParseValue(s).value.1);
    u := SkipSpace(ParseValue(s).value.1);
  }

  lemma {:induction false} ItemsOf(s: string) returns (items: Items)
    requires ParseItems(s).Ok? && forall v | v in ParseItems(s).value.0 :: Canonical(v)
    ensures ItemsOk(items) && items.before == []
    ensures s == ItemsWritten(items) + ParseItems(s).value.1 && ItemsMeant(items) == ParseItems(s).value.0
    decreases |s|, 2
  {
    var after, u := ItemParts(s);
    var rest := ParseItems(s).value.1;
    assert ParseValue(s).value.0 == ParseItems(s).value.0[0];
    var t := TreeOf(s);
    if u[0] == ']' {
      items := LastOf([], t, after);
      assert u == "]" + rest;
      RegroupItem(Written(t), after, "]", rest);
    } else {
      var space := SpaceSkipped(u[1..]);
      assert forall v | v in ParseItems(SkipSpace(u[1..])).value.0 :: v in ParseItems(s).value.0;
      var others := ItemsOf(SkipSpace(u[1..]));
      ItemsBefore(others, space);
      items := MoreOf([], t, after, others.(before := space));
      assert u == "," + u[1..];
      RegroupMore(Written(t), after, space, ItemsWritten(others), rest);
    }
  }

  lemma RegroupItem(item: string, after: string, end: string, rest: string)
    ensures item + (after + (end + rest)) == ([] + (item + (after + end))) + rest
  {
  }

  lemma RegroupMore(item: string, after: string, space: string, others: string, rest: string)
    ensures item + (after + ("," + (space + (others + rest)))) == ([] + (item + (after + ("," + (space + others))))) + rest
  {
  }

  /** The spaces around one member that was read. */
  datatype Gaps = Gaps(glyphs: seq<Glyph>, gap: string, before: string, after: string)

  /** Reading a member found a key, a colon and a value, with spaces between them. */
  lemma MemberParts(s: string) returns (g: Gaps, w: string, u: string)
    requires ParsePairs(s).Ok?
    ensures ParseValue(w).Ok? && |w| < |s| && |u| < |s| && u != [] && (u[0] == '}' || u[0] == ',')
    ensures AllOk(g.glyphs) && AllSpace(g.gap) && AllSpace(g.before) && AllSpace(g.after)
    ensures s == "\"" + (GlyphsWritten(g.glyphs) + ("\"" + (g.gap + (":" + (g.before + w)))))
    ensures ParseValue(w).value.1 == g.after + u
    ensures u[0] == '}' ==> ParsePairs(s).value == ([(GlyphsMeant(g.glyphs), ParseValue(w).value.0)], u[1..])
    ensures u[0] == ',' ==> var more := ParsePairs(SkipSpace(u[1..]));
      && more.Ok?
      && ParsePairs(s).value == ([(GlyphsMeant(g.glyphs), ParseValue(w).value.0)] + more.value.0, more.value.1)
  {
    var key := ParseChars(s[1..]).value;
    var glyphs := GlyphsOf(s[1..]);
    var gap := SpaceSkipped(key.1);
    var t := SkipSpace(key.1);
    var before := SpaceSkipped(t[1..]);
    w := SkipSpace(t[1..]);
    var after := SpaceSkipped(ParseValue(w).value.1);
    u := SkipSpace(ParseValue(w).value.1);
    g := Gaps(glyphs, gap, before, after);
    assert s == "\"" + s[1..] && t == ":" + t[1..];
  }

  lemma {:induction false} MembersOf(s: string) returns (members: Members)
    requires ParsePairs(s).Ok? && forall p | p in ParsePairs(s).value.0 :: Canonical(p.1)
    ensures MembersOk(members) && members.before == []
    ensures s == MembersWritten(members) + ParsePairs(s).value.1 && PairsMeant(members) == ParsePairs(s).value.0
    decreases |s|, 2
  {
    var g, w, u := MemberParts(s);
    assert (GlyphsMeant(g.glyphs), ParseValue(w).value.0) == ParsePairs(s).value.0[0];
    var tree := TreeOf(w);
    var f := Field(g.before, tree, g.after);
    var rest := ParsePairs(s).value.1;
    if u[0] == '}' {
      members := LastMember([], g.glyphs, g.gap, f);
      assert u == "}" + rest;
    } else {
      assert forall p | p in ParsePairs(SkipSpace(u[1..])).value.0 :: p in ParsePairs(s).value.0;
      var others := OtherMembers(u);
      members := MoreMembers([], g.glyphs, g.gap, f, others);
    }
    MemberAssembled(s, g, w, u, members, tree, rest);
  }

  lemma {:induction false} OtherMembers(u: string) returns (members: Members)
    requires u != [] && u[0] == ',' && ParsePairs(SkipSpace(u[1..])).Ok?
    requires forall p | p in ParsePairs(SkipSpace(u[1..])).value.0 :: Canonical(p.1)
    ensures MembersOk(members) && PairsMeant(members) == ParsePairs(SkipSpace(u[1..])).value.0
    ensures u == ("," + MembersWritten(members)) + ParsePairs(SkipSpace(u[1..])).value.1
    decreases |u|, 3
  {
    var space := SpaceSkipped(u[1..]);
    var rest := ParsePairs(SkipSpace(u[1..])).value.1;
    var others := MembersOf(SkipSpace(u[1..]));
    MembersBefore(others, space);
    members := others.(before := space);
    assert u == "," + u[1..];
    Regroup(space, MembersWritten(others), rest);
    Regroup(",", space + MembersWritten(others), rest);
  }

  lemma MemberAssembled(s: string, g: Gaps, w: string, u: string, members: Members, tree: Tree, rest: string)
    requires members.before == [] && members.key == g.glyphs && members.gap == g.gap
    requires members.value == Field(g.before, tree, g.after)
    requires s == "\"" + (GlyphsWritten(g.glyphs) + ("\"" + (g.gap + (":" + (g.before + w)))))
    requires w == Written(tree) + (g.after + u) && u == MembersTail(members) + rest
    ensures s == MembersWritten(members) + rest
  {
    MembersSplit(members, rest);
    NothingBefore(s);
  }

  lemma WhatIsReadWasSpelled(raw: string)
    requires LoadsStrict(raw).Ok?
    ensures Spells(raw, LoadsStrict(raw).value)
  {
    var before := SpaceSkipped(raw);
    var s := SkipSpace(raw);
    var t := TreeOf(s);
    var after := ParseValue(s).value.1;
    var space := SpaceSkipped(after);
    assert space + [] == space;
  }

  /**
   Strict loading accepts exactly the spellings of values whose every integer lies within 2^53 - 1
   of zero and whose every character is printable ASCII, each as the value it spells.
   */
  lemma LoadsExactlySpellings(raw: string, v: Json)
    ensures LoadsStrict(raw) == Ok(v) <==> Spells(raw, v) && AllWithinProfile(v)
    ensures Spells(raw, v) && !AllWithinProfile(v) ==> LoadsStrict(raw) == Err(OutsideProfile)
  {
    CanonicalMeaning(v);
    if LoadsStrict(raw) == Ok(v) {
      WhatIsReadWasSpelled(raw);
    }
    if Spells(raw, v) {
      SpellingsAreRead(raw, v);
    }
  }
}
