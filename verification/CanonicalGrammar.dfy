/**
 Which texts strict loading accepts: the spellings of a profile value in the grammar of RFC 8259,
 sections 2 to 7, stated as concrete syntax and without the parser.
 */
module CanonicalGrammar {
  import opened CanonicalText
  import opened CanonicalJson

  // ---------- concrete syntax ----------

  predicate IsHex(c: char) {
    '0' <= c <= '9' || 'a' <= c <= 'f' || 'A' <= c <= 'F'
  }

  function HexOf(c: char): (n: nat)
    requires IsHex(c)
    ensures n < 16
  {
    if c <= '9' then c as int - 48 else if c <= 'F' then c as int - 55 else c as int - 87
  }

  function CodeOf(hex: string): (n: nat)
    requires |hex| == 4 && forall i | 0 <= i < 4 :: IsHex(hex[i])
    ensures n < 0x1_0000
  {
    0x1000 * HexOf(hex[0]) + 0x100 * HexOf(hex[1]) + 0x10 * HexOf(hex[2]) + HexOf(hex[3])
  }

  /** A character of a string literal as it is written. */
  datatype Glyph = Plain(c: char) | Short(c: char) | Long(hex: string)
  {
    predicate Ok() {
      match this
      case Plain(c) => 32 <= c as int && c != '"' && c != '\\'
      case Short(c) => c in {'"', '\\', '/', 'b', 'f', 'n', 'r', 't'}
      case Long(hex) =>
        && |hex| == 4 && (forall i | 0 <= i < 4 :: IsHex(hex[i]))
        && !(0xD800 <= CodeOf(hex) <= 0xDFFF)
    }

    function Written(): string {
      match this
      case Plain(c) => [c]
      case Short(c) => ['\\', c]
      case Long(hex) => "\\u" + hex
    }

    function Meant(): char
      requires Ok()
    {
      match this
      case Plain(c) => c
      case Short(c) =>
        if c == 'b' then 8 as char else if c == 't' then 9 as char else if c == 'n' then 10 as char
        else if c == 'f' then 12 as char else if c == 'r' then 13 as char else c
      case Long(hex) => CodeOf(hex) as char
    }
  }

  /** A value as it is written, with the spaces inside it. Only the numbers of the profile occur. */
  datatype Tree =
    | NullWord
    | BoolWord(b: bool)
    | Number(minus: bool, digits: string)
    | Literal(glyphs: seq<Glyph>)
    | EmptyList(space: string)
    | FullList(items: Items)
    | EmptyObject(space: string)
    | FullObject(members: Members)

  datatype Items =
    | LastOf(before: string, item: Tree, after: string)
    | MoreOf(before: string, item: Tree, after: string, others: Items)

  datatype Members =
    | LastMember(before: string, key: seq<Glyph>, gap: string, value: Field)
    | MoreMembers(before: string, key: seq<Glyph>, gap: string, value: Field, others: Members)

  /** What stands behind a colon. */
  datatype Field = Field(before: string, item: Tree, after: string)

  predicate AllSpace(s: string) {
    forall i | 0 <= i < |s| :: s[i] in {' ', '\t', '\n', '\r'}
  }

  predicate AllOk(glyphs: seq<Glyph>) {
    forall i | 0 <= i < |glyphs| :: glyphs[i].Ok()
  }

  predicate Whole(digits: string) {
    digits == "0" || (digits != [] && digits[0] != '0' && forall i | 0 <= i < |digits| :: '0' <= digits[i] <= '9')
  }

  predicate TreeOk(t: Tree)
    decreases t, 0
  {
    match t
    case NullWord => true
    case BoolWord(_) => true
    case Number(_, digits) => Whole(digits)
    case Literal(glyphs) => AllOk(glyphs)
    case EmptyList(space) => AllSpace(space)
    case FullList(items) => ItemsOk(items)
    case EmptyObject(space) => AllSpace(space)
    case FullObject(members) => MembersOk(members) && ObjectPairs(PairsMeant(members)).Ok?
  }

  predicate ItemsOk(items: Items)
    decreases items, 0
  {
    && AllSpace(items.before) && TreeOk(items.item) && AllSpace(items.after)
    && (items.MoreOf? ==> ItemsOk(items.others))
  }

  predicate MembersOk(members: Members)
    decreases members, 0
  {
    && AllSpace(members.before) && AllOk(members.key) && AllSpace(members.gap)
    && AllSpace(members.value.before) && TreeOk(members.value.item) && AllSpace(members.value.after)
    && (members.MoreMembers? ==> MembersOk(members.others))
  }

  function GlyphsWritten(glyphs: seq<Glyph>): string {
    if glyphs == [] then [] else glyphs[0].Written() + GlyphsWritten(glyphs[1..])
  }

  function GlyphsMeant(glyphs: seq<Glyph>): string
    requires AllOk(glyphs)
  {
    if glyphs == [] then [] else [glyphs[0].Meant()] + GlyphsMeant(glyphs[1..])
  }

  function Written(t: Tree): string {
    match t
    case NullWord => "null"
    case BoolWord(b) => if b then "true" else "false"
    case Number(minus, digits) => (if minus then "-" else "") + digits
    case Literal(glyphs) => "\"" + (GlyphsWritten(glyphs) + "\"")
    case EmptyList(space) => "[" + (space + "]")
    case FullList(items) => "[" + ItemsWritten(items)
    case EmptyObject(space) => "{" + (space + "}")
    case FullObject(members) => "{" + MembersWritten(members)
  }

  function ItemsWritten(items: Items): string
    decreases items, 1
  {
    items.before + ItemsBody(items)
  }

  function ItemsBody(items: Items): string
    decreases items, 0
  {
    Written(items.item) + (items.after +
    match items case LastOf(_, _, _) => "]" case MoreOf(_, _, _, others) => "," + ItemsWritten(others))
  }

  function MembersWritten(members: Members): string
    decreases members, 1
  {
    members.before + MembersBody(members)
  }

  function MembersBody(members: Members): string
    decreases members, 0
  {
    "\"" + (GlyphsWritten(members.key) + ("\"" + (members.gap + (":" +
    (members.value.before + (Written(members.value.item) + (members.value.after +
    match members case LastMember(_, _, _, _) => "}" case MoreMembers(_, _, _, _, others) => "," + MembersWritten(others))))))))
  }

  function Meant(t: Tree): Json
    requires TreeOk(t)
    decreases t, 1
  {
    match t
    case NullWord => Null
    case BoolWord(b) => Bool(b)
    case Number(minus, digits) => Int(if minus then -InPlaces(digits) else InPlaces(digits))
    case Literal(glyphs) => Text(GlyphsMeant(glyphs))
    case EmptyList(_) => List([])
    case FullList(items) => List(ItemsMeant(items))
    case EmptyObject(_) => Object(map[])
    case FullObject(members) => Object(ObjectPairs(PairsMeant(members)).value)
  }

  function ItemsMeant(items: Items): seq<Json>
    requires ItemsOk(items)
    decreases items, 1
  {
    [Meant(items.item)] + match items case LastOf(_, _, _) => [] case MoreOf(_, _, _, others) => ItemsMeant(others)
  }

  function PairsMeant(members: Members): seq<(string, Json)>
    requires MembersOk(members)
    decreases members, 1
  {
    [(GlyphsMeant(members.key), Meant(members.value.item))] +
    match members case LastMember(_, _, _, _) => [] case MoreMembers(_, _, _, _, others) => PairsMeant(others)
  }

  /** The grammar: `raw` is a way to write `v`, with spaces around it. */
  ghost predicate Spells(raw: string, v: Json) {
    exists before: string, t: Tree, after: string ::
      AllSpace(before) && AllSpace(after) && TreeOk(t) && raw == before + (Written(t) + after) && Meant(t) == v
  }
}
