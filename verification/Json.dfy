/**
 * The reader for the restricted JSON of the script manifest
 * (scripting/gameplay/src/gameplay_manifest.cpp). The source scans characters and
 * parses in one pass. The specification separates the two: `Tokens` cuts a text into
 * tokens, `ReadValue` reads a value off the front of a token list, and `Spell` writes
 * the tokens of a value down. `JsonParser` is the one-pass program, proved equal to
 * the composition.
 */
module Json {
  import opened Decimals
  import opened Options

  datatype Value =
    | Null
    | Bool(flag: bool)
    | Number(number: real)
    | String(str: string)
    | Array(items: seq<Value>)
    | Object(fields: seq<Field>)

  datatype Field = Field(key: string, value: Value)

  datatype Token =
    | ObjectOpen | ObjectClose | ArrayOpen | ArrayClose | Colon | Comma
    | Text(str: string) | Numeral(number: real) | Flag(flag: bool) | Nothing
    | Bad

  /** What a scan found and how many characters it took. */
  datatype Scanned = Scanned(token: Token, length: nat)

  // ----- scanning -----

  predicate IsBlank(c: char) {
    c == ' ' || c == '\t' || c == '\n' || c == '\r'
  }

  predicate Blank(s: string) {
    forall i :: 0 <= i < |s| ==> IsBlank(s[i])
  }

  /** The rest of a string literal after its opening quote: its text and the characters used, closing quote included. */
  datatype Body = Body(text: string, used: nat) | Broken

  function Prepend(out: string, skipped: nat, b: Body): Body {
    match b
    case Broken => Broken
    case Body(text, used) => Body(out + text, skipped + used)
  }

  predicate IsHex(c: char) {
    IsDigit(c) || 'a' <= c <= 'f' || 'A' <= c <= 'F'
  }

  function HexValue(c: char): (d: nat)
    requires IsHex(c)
    ensures d < 16
  {
    if IsDigit(c) then ValueOf(c)
    else if 'a' <= c <= 'f' then c as nat - 'a' as nat + 10
    else c as nat - 'A' as nat + 10
  }

  /** The number written by the first i digits of s. */
  function HexPart(s: string, i: nat): nat
    requires i <= |s| && forall k :: 0 <= k < i ==> IsHex(s[k])
  {
    if i == 0 then 0 else 0x10 * HexPart(s, i - 1) + HexValue(s[i - 1])
  }

  /** A digit's value is its place among the sixteen, in either case. */
  lemma HexIs(c: char)
    ensures IsHex(c) <==> c in "0123456789abcdefABCDEF"
    ensures IsHex(c) ==> c == "0123456789abcdef"[HexValue(c)] || c == "0123456789ABCDEF"[HexValue(c)]
  {
    if IsHex(c) {
      var low, high := "0123456789abcdef", "0123456789ABCDEF";
      var v := HexValue(c);
      assert low[v] == c || high[v] == c;
      assert v < 10 ==> c == "0123456789abcdefABCDEF"[v];
      assert 'a' <= c <= 'f' ==> c == "0123456789abcdefABCDEF"[v];
      assert 'A' <= c <= 'F' ==> c == "0123456789abcdefABCDEF"[v + 6];
    }
  }

  /** The number a \u escape gives, digit by digit. */
  lemma Hex4Weighs(s: string)
    requires Hex4(s).Some?
    ensures Hex4(s).value
            == HexValue(s[0]) * 4096 + HexValue(s[1]) * 256 + HexValue(s[2]) * 16 + HexValue(s[3])
  {
    hide HexValue;
    assert HexPart(s, 1) == HexValue(s[0]);
    assert HexPart(s, 2) == 16 * HexPart(s, 1) + HexValue(s[1]);
    assert HexPart(s, 3) == 16 * HexPart(s, 2) + HexValue(s[2]);
  }

  /** The four digits of a \u escape. */
  function Hex4(s: string): (code: Option<nat>)
    ensures code.Some? ==> |s| >= 4 && code.value < 0x10000
    ensures code.Some? <==> |s| >= 4 && forall i :: 0 <= i < 4 ==> IsHex(s[i])
  {
    if |s| >= 4 && forall i :: 0 <= i < 4 ==> IsHex(s[i]) then
      assert HexPart(s, 1) < 0x10;
      assert HexPart(s, 2) < 0x100;
      assert HexPart(s, 3) < 0x1000;
      Some(HexPart(s, 4))
    else
      None
  }

  /** The bytes of a code of the basic plane in UTF-8, one character per byte. */
  function Utf8(code: nat): (bytes: string)
    requires code < 0x10000
    ensures 1 <= |bytes| <= 3
  {
    if code < 0x80 then [code as char]
    else if code < 0x800 then [(0xC0 + code / 0x40) as char, (0x80 + code % 0x40) as char]
    else [(0xE0 + code / 0x1000) as char, (0x80 + code / 0x40 % 0x40) as char, (0x80 + code % 0x40) as char]
  }

  /** The character a one-letter escape stands for. */
  function Escaped(e: char): Option<char> {
    match e
    case '"' => Some('"')
    case '\\' => Some('\\')
    case '/' => Some('/')
    case 'b' => Some(8 as char)
    case 'f' => Some(12 as char)
    case 'n' => Some('\n')
    case 'r' => Some('\r')
    case 't' => Some('\t')
    case _ => None
  }

  /** The eight one-letter escapes of JSON (section 7 of RFC 8259), by their codes. */
  lemma EscapesAre(e: char, c: char)
    ensures Escaped(e) == Some(c) <==>
              || (e == '"' && c as int == 0x22) || (e == '\\' && c as int == 0x5C) || (e == '/' && c as int == 0x2F)
              || (e == 'b' && c as int == 0x08) || (e == 'f' && c as int == 0x0C) || (e == 'n' && c as int == 0x0A)
              || (e == 'r' && c as int == 0x0D) || (e == 't' && c as int == 0x09)
  {
  }

  /** The bytes of a code give it back, as section 3 of RFC 3629 lays them out. */
  lemma Utf8IsRead(code: nat)
    requires code < 0x10000
    ensures var b := Utf8(code);
            && (code < 0x80 ==> |b| == 1 && b[0] as int == code)
            && (0x80 <= code < 0x800 ==>
                  |b| == 2 && 0xC2 <= b[0] as int < 0xE0 && 0x80 <= b[1] as int < 0xC0
                  && code == (b[0] as int - 0xC0) * 64 + (b[1] as int - 0x80))
            && (0x800 <= code ==>
                  |b| == 3 && 0xE0 <= b[0] as int < 0xF0 && 0x80 <= b[1] as int < 0xC0 && 0x80 <= b[2] as int < 0xC0
                  && code == (b[0] as int - 0xE0) * 4096 + (b[1] as int - 0x80) * 64 + (b[2] as int - 0x80))
  {
  }

  function StringBody(s: string): (b: Body)
    ensures b.Body? ==> 0 < b.used <= |s| && |b.text| < b.used
  {
    if |s| == 0 then Broken
    else if s[0] == '"' then Body("", 1)
    else if s[0] != '\\' then Prepend([s[0]], 1, StringBody(s[1..]))
    else if |s| == 1 then Broken
    else if s[1] == 'u' then
      match Hex4(s[2..])
      case None => Broken
      case Some(code) => Prepend(Utf8(code), 6, StringBody(s[6..]))
    else
      match Escaped(s[1])
      case None => Broken
      case Some(c) => Prepend([c], 2, StringBody(s[2..]))
  }

  // The parts of a number: sign, digits, '.', digits, 'e', sign, digits. Only one of the digit runs
  // before the exponent has to be there.

  function SignEnd(s: string, i: nat): (e: nat)
    requires i <= |s|
    ensures i <= e <= |s| && e <= i + 1
  {
    if i < |s| && (s[i] == '-' || s[i] == '+') then i + 1 else i
  }

  function WholeEnd(s: string): (e: nat)
    ensures SignEnd(s, 0) <= e <= |s|
  {
    DigitsEnd(s, SignEnd(s, 0))
  }

  function FractionFrom(s: string): (e: nat)
    ensures WholeEnd(s) <= e <= |s|
  {
    var w := WholeEnd(s);
    if w < |s| && s[w] == '.' then w + 1 else w
  }

  function FractionEnd(s: string): (e: nat)
    ensures FractionFrom(s) <= e <= |s|
  {
    if FractionFrom(s) == WholeEnd(s) then WholeEnd(s) else DigitsEnd(s, FractionFrom(s))
  }

  function ExponentFrom(s: string): (e: nat)
    ensures FractionEnd(s) <= e <= |s|
  {
    var f := FractionEnd(s);
    if f < |s| && (s[f] == 'e' || s[f] == 'E') then SignEnd(s, f + 1) else f
  }

  function NumberEnd(s: string): (e: nat)
    ensures ExponentFrom(s) <= e <= |s|
  {
    if ExponentFrom(s) == FractionEnd(s) then FractionEnd(s) else DigitsEnd(s, ExponentFrom(s))
  }

  predicate HasDigits(s: string) {
    SignEnd(s, 0) < WholeEnd(s) || FractionFrom(s) < FractionEnd(s)
  }

  /** The value of the number at the front of s, exactly (no rounding to a double). */
  function NumberValue(s: string): real {
    var whole := DigitsValue(s[SignEnd(s, 0)..WholeEnd(s)]) as real;
    var fraction := if FractionEnd(s) == FractionFrom(s) then 0.0
                    else DigitsValue(s[FractionFrom(s)..FractionEnd(s)]) as real
                         / Pow10(FractionEnd(s) - FractionFrom(s));
    var size := whole + fraction;
    var scaled := if NumberEnd(s) == ExponentFrom(s) then size
                  else if s[ExponentFrom(s) - 1] == '-'
                  then size / Pow10(DigitsValue(s[ExponentFrom(s)..NumberEnd(s)]))
                  else size * Pow10(DigitsValue(s[ExponentFrom(s)..NumberEnd(s)]));
    if SignEnd(s, 0) > 0 && s[0] == '-' then -scaled else scaled
  }

  /** Can a number go on with this character? */
  predicate Continues(c: char) {
    IsDigit(c) || c == '-' || c == '+' || c == '.' || c == 'e' || c == 'E'
  }

  /**
   * Does u start with the first n characters of s, and go on either as s does or with a character no number
   * goes on with?
   */
  predicate SameFront(s: string, u: string, n: nat) {
    n <= |s| && n <= |u| && u[..n] == s[..n] && (n < |u| ==> !Continues(u[n]) || (n < |s| && u[n] == s[n]))
  }

  lemma DigitsAreLocal(s: string, u: string, n: nat, i: nat)
    requires i <= n && SameFront(s, u, n) && DigitsEnd(s, i) <= n
    ensures DigitsEnd(u, i) == DigitsEnd(s, i)
  {
    var e := DigitsEnd(s, i);
    assert forall k :: 0 <= k < n ==> u[k] == u[..n][k] == s[..n][k] == s[k];
    assert u[i..e] == s[i..e];
    DigitsEndIs(u, i, e);
  }

  lemma WholeIsLocal(s: string, u: string, n: nat)
    requires SameFront(s, u, n) && FractionFrom(s) <= n
    ensures SignEnd(u, 0) == SignEnd(s, 0) && WholeEnd(u) == WholeEnd(s) && FractionFrom(u) == FractionFrom(s)
  {
    hide DigitsEnd;
    assert forall k :: 0 <= k < n ==> u[k] == u[..n][k] == s[..n][k] == s[k];
    assert SignEnd(u, 0) == SignEnd(s, 0);
    DigitsAreLocal(s, u, n, SignEnd(s, 0));
  }

  lemma FractionIsLocal(s: string, u: string, n: nat)
    requires SameFront(s, u, n) && FractionEnd(s) <= n
    ensures FractionFrom(u) == FractionFrom(s) && FractionEnd(u) == FractionEnd(s)
  {
    hide DigitsEnd, FractionFrom;
    WholeIsLocal(s, u, n);
    DigitsAreLocal(s, u, n, FractionFrom(s));
  }

  lemma ExponentIsLocal(s: string, u: string)
    requires SameFront(s, u, NumberEnd(s))
    ensures ExponentFrom(u) == ExponentFrom(s) && NumberEnd(u) == NumberEnd(s)
  {
    hide DigitsEnd, FractionFrom, FractionEnd;
    var n := NumberEnd(s);
    assert forall k :: 0 <= k < n ==> u[k] == u[..n][k] == s[..n][k] == s[k];
    FractionIsLocal(s, u, n);
    assert ExponentFrom(u) == ExponentFrom(s);
    if ExponentFrom(s) != FractionEnd(s) {
      DigitsAreLocal(s, u, n, ExponentFrom(s));
    }
  }

  /** What a number is does not depend on the text behind it. */
  lemma NumberIsLocal(s: string, u: string)
    requires SameFront(s, u, NumberEnd(s))
    ensures HasDigits(u) == HasDigits(s) && NumberEnd(u) == NumberEnd(s) && NumberValue(u) == NumberValue(s)
  {
    hide DigitsEnd, FractionFrom, FractionEnd, SignEnd, WholeEnd, ExponentFrom, Pow10, DigitsValue;
    var n := NumberEnd(s);
    WholeIsLocal(s, u, n);
    FractionIsLocal(s, u, n);
    ExponentIsLocal(s, u);
    assert forall k :: 0 <= k < n ==> u[k] == u[..n][k] == s[..n][k] == s[k];
    assert u[SignEnd(s, 0)..WholeEnd(s)] == s[SignEnd(s, 0)..WholeEnd(s)];
    assert u[FractionFrom(s)..FractionEnd(s)] == s[FractionFrom(s)..FractionEnd(s)];
    assert u[ExponentFrom(s)..NumberEnd(s)] == s[ExponentFrom(s)..NumberEnd(s)];
  }

  /** The token at the front of a text that does not start with white space. */
  function Scan(s: string): (t: Scanned)
    requires |s| > 0
    ensures t.token != Bad ==> 0 < t.length <= |s|
  {
    match s[0]
    case '{' => Scanned(ObjectOpen, 1)
    case '}' => Scanned(ObjectClose, 1)
    case '[' => Scanned(ArrayOpen, 1)
    case ']' => Scanned(ArrayClose, 1)
    case ':' => Scanned(Colon, 1)
    case ',' => Scanned(Comma, 1)
    case '"' =>
      (match StringBody(s[1..])
       case Broken => Scanned(Bad, 0)
       case Body(text, used) => Scanned(Text(text), 1 + used))
    case 't' => if "true" <= s then Scanned(Flag(true), 4) else Scanned(Bad, 0)
    case 'f' => if "false" <= s then Scanned(Flag(false), 5) else Scanned(Bad, 0)
    case 'n' => if "null" <= s then Scanned(Nothing, 4) else Scanned(Bad, 0)
    case _ => if HasDigits(s) then Scanned(Numeral(NumberValue(s)), NumberEnd(s)) else Scanned(Bad, 0)
  }

  /** All tokens of a text; a text that cannot be scanned further ends in Bad. */
  function Tokens(s: string): seq<Token>
    decreases |s|
  {
    if |s| == 0 then []
    else if IsBlank(s[0]) then Tokens(s[1..])
    else if Scan(s).token == Bad then [Bad]
    else [Scan(s).token] + Tokens(s[Scan(s).length..])
  }

  // ----- reading tokens -----

  datatype Read<T> = Read(value: T, rest: seq<Token>) | Fail

  function ReadValue(ts: seq<Token>): (r: Read<Value>)
    ensures r.Read? ==> |r.rest| < |ts|
    decreases |ts|, 0
  {
    if |ts| == 0 then Fail else
    match ts[0]
    case Text(s) => Read(String(s), ts[1..])
    case Numeral(n) => Read(Number(n), ts[1..])
    case Flag(b) => Read(Bool(b), ts[1..])
    case Nothing => Read(Null, ts[1..])
    case ObjectOpen =>
      if |ts| > 1 && ts[1] == ObjectClose then Read(Object([]), ts[2..]) else
      (match ReadMembers(ts[1..])
       case Fail => Fail
       case Read(fields, rest) => Read(Object(fields), rest))
    case ArrayOpen =>
      if |ts| > 1 && ts[1] == ArrayClose then Read(Array([]), ts[2..]) else
      (match ReadElements(ts[1..])
       case Fail => Fail
       case Read(items, rest) => Read(Array(items), rest))
    case _ => Fail
  }

  /** One member, then either a comma and more members or the closing brace. */
  function ReadMembers(ts: seq<Token>): (r: Read<seq<Field>>)
    ensures r.Read? ==> |r.rest| < |ts| && |r.value| > 0
    decreases |ts|, 1
  {
    match ReadMember(ts)
    case Fail => Fail
    case Read(member, rest) => MoreMembers([member], rest)
  }

  /** A key, a colon and a value. */
  function ReadMember(ts: seq<Token>): (r: Read<Field>)
    ensures r.Read? ==> |r.rest| < |ts|
    decreases |ts|, 0
  {
    if |ts| < 2 || !ts[0].Text? || ts[1] != Colon then Fail else
    match ReadValue(ts[2..])
    case Fail => Fail
    case Read(v, rest) => Read(Field(ts[0].str, v), rest)
  }

  function MoreMembers(fields: seq<Field>, ts: seq<Token>): (r: Read<seq<Field>>)
    requires |fields| > 0
    ensures r.Read? ==> |r.rest| < |ts| && |r.value| > 0
    decreases |ts|, 2
  {
    if |ts| == 0 then Fail
    else if ts[0] == ObjectClose then Read(fields, ts[1..])
    else if ts[0] != Comma then Fail
    else match ReadMembers(ts[1..])
      case Fail => Fail
      case Read(more, rest) => Read(fields + more, rest)
  }

  /** One value, then either a comma and more values or the closing bracket. */
  function ReadElements(ts: seq<Token>): (r: Read<seq<Value>>)
    ensures r.Read? ==> |r.rest| < |ts| && |r.value| > 0
    decreases |ts|, 1
  {
    match ReadValue(ts)
    case Fail => Fail
    case Read(v, rest) => MoreElements([v], rest)
  }

  function MoreElements(items: seq<Value>, ts: seq<Token>): (r: Read<seq<Value>>)
    requires |items| > 0
    ensures r.Read? ==> |r.rest| < |ts| && |r.value| > 0
    decreases |ts|, 2
  {
    if |ts| == 0 then Fail
    else if ts[0] == ArrayClose then Read(items, ts[1..])
    else if ts[0] != Comma then Fail
    else match ReadElements(ts[1..])
      case Fail => Fail
      case Read(more, rest) => Read(items + more, rest)
  }

  /** The value a whole text stands for. */
  function Parsed(s: string): Option<Value> {
    match ReadValue(Tokens(s))
    case Read(v, rest) => if |rest| == 0 then Some(v) else None
    case Fail => None
  }

  // ----- the grammar -----

  /** The tokens of a value. */
  function Spell(v: Value): seq<Token>
    decreases v
  {
    match v
    case Null => [Nothing]
    case Bool(b) => [Flag(b)]
    case Number(n) => [Numeral(n)]
    case String(s) => [Text(s)]
    case Array(items) => [ArrayOpen] + SpellElements(items) + [ArrayClose]
    case Object(fields) => [ObjectOpen] + SpellMembers(fields) + [ObjectClose]
  }

  function SpellElements(items: seq<Value>): seq<Token>
    decreases items
  {
    if |items| == 0 then []
    else if |items| == 1 then Spell(items[0])
    else Spell(items[0]) + [Comma] + SpellElements(items[1..])
  }

  function SpellMembers(fields: seq<Field>): seq<Token>
    decreases fields
  {
    if |fields| == 0 then []
    else if |fields| == 1 then [Text(fields[0].key), Colon] + Spell(fields[0].value)
    else [Text(fields[0].key), Colon] + Spell(fields[0].value) + [Comma] + SpellMembers(fields[1..])
  }

  lemma SpellingStarts(v: Value)
    ensures |Spell(v)| > 0 && Spell(v)[0] != ArrayClose && Spell(v)[0] != ObjectClose
  {
  }

  /** The tokens of a value are read back as that value, whatever follows. */
  lemma {:induction false} SpellingIsRead(v: Value, rest: seq<Token>)
    ensures ReadValue(Spell(v) + rest) == Read(v, rest)
    decreases v
  {
    var ts := Spell(v) + rest;
    FirstValue(ts);
    match v
    case Array(items) =>
      assert ts[1..] == SpellElements(items) + ([ArrayClose] + rest);
      if |items| > 0 {
        SpellingStarts(items[0]);
        ElementsAreRead(items, rest);
      }
    case Object(fields) =>
      assert ts[1..] == SpellMembers(fields) + ([ObjectClose] + rest);
      if |fields| > 0 {
        MembersAreRead(fields, rest);
      }
    case _ =>
      assert ts[1..] == rest;
  }

  lemma {:induction false} ElementsAreRead(items: seq<Value>, rest: seq<Token>)
    requires |items| > 0
    ensures ReadElements(SpellElements(items) + ([ArrayClose] + rest)) == Read(items, rest)
    decreases items
  {
    hide ReadValue, ReadMember;
    var ts := SpellElements(items) + ([ArrayClose] + rest);
    if |items| == 1 {
      SpellingIsRead(items[0], [ArrayClose] + rest);
      assert items == [items[0]];
    } else {
      var more := SpellElements(items[1..]) + ([ArrayClose] + rest);
      assert ts == Spell(items[0]) + ([Comma] + more);
      SpellingIsRead(items[0], [Comma] + more);
      ElementsAreRead(items[1..], rest);
      assert items == [items[0]] + items[1..];
    }
  }

  lemma {:induction false} MembersAreRead(fields: seq<Field>, rest: seq<Token>)
    requires |fields| > 0
    ensures ReadMembers(SpellMembers(fields) + ([ObjectClose] + rest)) == Read(fields, rest)
    decreases fields
  {
    hide ReadValue;
    var ts := SpellMembers(fields) + ([ObjectClose] + rest);
    var f := fields[0];
    if |fields| == 1 {
      assert ts[2..] == Spell(f.value) + ([ObjectClose] + rest);
      SpellingIsRead(f.value, [ObjectClose] + rest);
      assert fields == [f];
    } else {
      var more := SpellMembers(fields[1..]) + ([ObjectClose] + rest);
      assert ts[2..] == Spell(f.value) + ([Comma] + more);
      SpellingIsRead(f.value, [Comma] + more);
      MembersAreRead(fields[1..], rest);
      assert fields == [f] + fields[1..];
    }
  }

  lemma Bracketed(open: Token, inner: seq<Token>, close: Token, rest: seq<Token>)
    ensures [open] + inner + [close] + rest == [open] + (inner + ([close] + rest))
  {
  }

  /** A value is read only off the tokens of that value. */
  lemma {:induction false} ReadingIsSpelled(ts: seq<Token>)
    requires ReadValue(ts).Read?
    ensures ts == Spell(ReadValue(ts).value) + ReadValue(ts).rest
    decreases |ts|, 0
  {
    assert SpellElements([]) == [] && SpellMembers([]) == [];
    hide ReadElements, ReadMembers, SpellElements, SpellMembers;
    FirstValue(ts);
    assert ts == [ts[0]] + ts[1..];
    var rest := ReadValue(ts).rest;
    if ts[0] == ArrayOpen {
      if ts[1..][0] == ArrayClose {
        assert ts[1..] == [] + ([ArrayClose] + rest);
        Bracketed(ArrayOpen, [], ArrayClose, rest);
      } else {
        ElementsAreSpelled(ts[1..]);
        Bracketed(ArrayOpen, SpellElements(ReadElements(ts[1..]).value), ArrayClose, rest);
      }
    } else if ts[0] == ObjectOpen {
      if ts[1..][0] == ObjectClose {
        assert ts[1..] == [] + ([ObjectClose] + rest);
        Bracketed(ObjectOpen, [], ObjectClose, rest);
      } else {
        MembersAreSpelled(ts[1..]);
        Bracketed(ObjectOpen, SpellMembers(ReadMembers(ts[1..]).value), ObjectClose, rest);
      }
    }
  }

  lemma {:induction false} ElementsAreSpelled(ts: seq<Token>)
    requires ReadElements(ts).Read?
    ensures ts == SpellElements(ReadElements(ts).value) + ([ArrayClose] + ReadElements(ts).rest)
    decreases |ts|, 1
  {
    hide ReadValue, ReadMembers, MoreMembers, Spell, SpellMembers;
    ReadingIsSpelled(ts);
    var Read(v, rest) := ReadValue(ts);
    assert rest == [rest[0]] + rest[1..];
    if rest[0] == Comma {
      ElementsAreSpelled(rest[1..]);
      assert ReadElements(ts).value[1..] == ReadElements(rest[1..]).value;
    }
  }

  lemma MemberBefore(head: seq<Token>, v: seq<Token>, more: seq<Token>, behind: seq<Token>)
    ensures head + (v + ([Comma] + (more + behind))) == head + v + [Comma] + more + behind
    ensures head + (v + behind) == head + v + behind
  {
  }

  lemma {:induction false} MembersAreSpelled(ts: seq<Token>)
    requires ReadMembers(ts).Read?
    ensures ts == SpellMembers(ReadMembers(ts).value) + ([ObjectClose] + ReadMembers(ts).rest)
    decreases |ts|, 1
  {
    hide ReadValue, ReadElements, MoreElements, Spell, SpellElements;
    ReadingIsSpelled(ts[2..]);
    var Read(v, rest) := ReadValue(ts[2..]);
    var head := [ts[0], ts[1]];
    assert ts == head + ts[2..];
    assert rest == [rest[0]] + rest[1..];
    var behind := [ObjectClose] + ReadMembers(ts).rest;
    if rest[0] == Comma {
      MembersAreSpelled(rest[1..]);
      assert ReadMembers(ts).value[1..] == ReadMembers(rest[1..]).value;
      MemberBefore(head, Spell(v), SpellMembers(ReadMembers(rest[1..]).value), behind);
    } else {
      MemberBefore(head, Spell(v), [], behind);
    }
  }

  /** The parser accepts exactly the texts whose tokens spell a value, and answers that value. */
  lemma ParsedIffSpelled(s: string, v: Value)
    ensures Parsed(s) == Some(v) <==> Tokens(s) == Spell(v)
  {
    SpellingIsRead(v, []);
    assert Spell(v) + [] == Spell(v);
    if ReadValue(Tokens(s)).Read? {
      ReadingIsSpelled(Tokens(s));
      var w := ReadValue(Tokens(s)).value;
      assert ReadValue(Tokens(s)).rest == [] ==> Spell(w) + ReadValue(Tokens(s)).rest == Spell(w);
    }
  }

  // ----- white space between tokens -----

  /** Does a scan from the start of s stop at k? */
  predicate BetweenTokens(s: string, k: nat)
    requires k <= |s|
    decreases |s|
  {
    k == 0 ||
    if IsBlank(s[0]) then BetweenTokens(s[1..], k - 1)
    else Scan(s).token != Bad && Scan(s).length <= k && BetweenTokens(s[Scan(s).length..], k - Scan(s).length)
  }

  /** Texts that agree up to n agree behind every place before n. */
  lemma SameFrontBehind(s: string, u: string, n: nat, k: nat)
    requires k <= n <= |s| && n <= |u| && u[..n] == s[..n]
    ensures u[k..][..n - k] == s[k..][..n - k]
    ensures forall i :: 0 <= i < n ==> u[i] == s[i]
  {
    assert forall i :: 0 <= i < n ==> u[i] == u[..n][i] == s[..n][i] == s[i];
  }

  /** A string literal does not depend on the text behind it. */
  lemma {:induction false} BodyIsLocal(s: string, u: string)
    requires StringBody(s).Body? && StringBody(s).used <= |u| && u[..StringBody(s).used] == s[..StringBody(s).used]
    ensures StringBody(u) == StringBody(s)
    decreases |s|
  {
    hide Utf8, Escaped, HexPart;
    var n := StringBody(s).used;
    SameFrontBehind(s, u, n, 0);
    if s[0] != '"' {
      var step := if s[0] != '\\' then 1 else if s[1] == 'u' then 6 else 2;
      SameFrontBehind(s, u, n, step);
      BodyIsLocal(s[step..], u[step..]);
      if step == 6 {
        assert forall k :: 0 <= k < 4 ==> u[2..][k] == s[2..][k];
        HexIsLocal(s[2..], u[2..], 4);
      }
    }
  }

  lemma {:induction false} HexIsLocal(s: string, u: string, i: nat)
    requires i <= |s| && i <= |u| && forall k :: 0 <= k < i ==> IsHex(s[k]) && u[k] == s[k]
    ensures HexPart(u, i) == HexPart(s, i)
  {
    if i == 0 {
    } else {
      HexIsLocal(s, u, i - 1);
    }
  }

  lemma WordIsLocal(s: string, u: string, word: string)
    requires word <= s && |word| <= |u| && u[..|word|] == s[..|word|]
    ensures word <= u
  {
  }

  lemma ScanIsLocal(s: string, u: string)
    requires |s| > 0 && Scan(s).token != Bad && SameFront(s, u, Scan(s).length)
    ensures |u| > 0 && Scan(u) == Scan(s)
  {
    hide StringBody, HasDigits, NumberEnd, NumberValue;
    var n := Scan(s).length;
    assert s[0] == s[..n][0] == u[..n][0] == u[0];
    match s[0]
    case '{' => case '}' => case '[' => case ']' => case ':' => case ',' =>
    case '"' =>
      SameFrontBehind(s, u, n, 1);
      BodyIsLocal(s[1..], u[1..]);
    case 't' => WordIsLocal(s, u, "true");
    case 'f' => WordIsLocal(s, u, "false");
    case 'n' => WordIsLocal(s, u, "null");
    case _ => NumberIsLocal(s, u);
  }

  lemma {:induction false} LeadingBlanks(w: string, s: string)
    requires Blank(w)
    ensures Tokens(w + s) == Tokens(s)
  {
    if |w| == 0 {
      assert w + s == s;
    } else {
      assert (w + s)[1..] == w[1..] + s;
      LeadingBlanks(w[1..], s);
    }
  }

  /** White space put between two tokens leaves the tokens as they are. */
  lemma {:induction false} BlanksKeepTokens(s: string, k: nat, w: string)
    requires k <= |s| && BetweenTokens(s, k) && Blank(w)
    ensures Tokens(s[..k] + w + s[k..]) == Tokens(s)
    decreases |s|
  {
    hide Scan;
    var u := s[..k] + w + s[k..];
    if k == 0 {
      assert u == w + s;
      LeadingBlanks(w, s);
    } else if |w| == 0 {
      assert u == s;
    } else if IsBlank(s[0]) {
      assert u[1..] == s[1..][..k - 1] + w + s[1..][k - 1..];
      BlanksKeepTokens(s[1..], k - 1, w);
    } else {
      var n := Scan(s).length;
      assert u[..n] == s[..n];
      assert n == k ==> u[n] == w[0];
      ScanIsLocal(s, u);
      assert u[n..] == s[n..][..k - n] + w + s[n..][k - n..];
      BlanksKeepTokens(s[n..], k - n, w);
    }
  }

  /** Places further to the front stay between tokens. */
  lemma {:induction false} PlacesStay(s: string, k: nat, w: string, j: nat)
    requires j <= k <= |s| && BetweenTokens(s, k) && BetweenTokens(s, j) && Blank(w)
    ensures BetweenTokens(s[..k] + w + s[k..], j)
    decreases |s|
  {
    hide Scan;
    var u := s[..k] + w + s[k..];
    if j == 0 {
    } else if |w| == 0 {
      assert u == s;
    } else if IsBlank(s[0]) {
      assert u[1..] == s[1..][..k - 1] + w + s[1..][k - 1..];
      PlacesStay(s[1..], k - 1, w, j - 1);
    } else {
      var n := Scan(s).length;
      assert u[..n] == s[..n];
      assert n == k ==> u[n] == w[0];
      ScanIsLocal(s, u);
      assert u[n..] == s[n..][..k - n] + w + s[n..][k - n..];
      PlacesStay(s[n..], k - n, w, j - n);
    }
  }

  /** White space to put in at a place. */
  datatype Gap = Gap(place: nat, blanks: string)

  /** Gaps between tokens of s, from the front to the back. */
  predicate GapsOk(s: string, gaps: seq<Gap>) {
    && (forall i :: 0 <= i < |gaps| ==>
          gaps[i].place <= |s| && BetweenTokens(s, gaps[i].place) && Blank(gaps[i].blanks))
    && (forall i, j :: 0 <= i < j < |gaps| ==> gaps[i].place <= gaps[j].place)
  }

  /** The text with all gaps filled, the last one first. */
  function Spread(s: string, gaps: seq<Gap>): string
    requires forall i :: 0 <= i < |gaps| ==> gaps[i].place <= |s|
    decreases |gaps|
  {
    if |gaps| == 0 then s
    else
      var g := gaps[|gaps| - 1];
      Spread(s[..g.place] + g.blanks + s[g.place..], gaps[..|gaps| - 1])
  }

  /**
   * Putting white space between tokens, at any set of places, or taking it away, changes neither whether a text
   * is accepted nor its value.
   */
  lemma {:induction false} BlanksKeepMeaning(s: string, gaps: seq<Gap>)
    requires GapsOk(s, gaps)
    ensures Tokens(Spread(s, gaps)) == Tokens(s) && Parsed(Spread(s, gaps)) == Parsed(s)
    decreases |gaps|
  {
    hide Tokens, BetweenTokens;
    if |gaps| == 0 {
    } else {
      var n := |gaps| - 1;
      var g := gaps[n];
      var u := s[..g.place] + g.blanks + s[g.place..];
      BlanksKeepTokens(s, g.place, g.blanks);
      forall i | 0 <= i < n ensures BetweenTokens(u, gaps[..n][i].place) {
        PlacesStay(s, g.place, g.blanks, gaps[i].place);
      }
      BlanksKeepMeaning(u, gaps[..n]);
    }
  }

  // ----- the one-pass parser -----

  /** A parsing method that answered (ok, v) and left `rest` unread did what the specification says. */
  ghost predicate Agrees<T>(ok: bool, v: T, spec: Read<T>, rest: seq<Token>) {
    if ok then spec == Read(v, rest) else spec == Fail
  }

  function Joined<T>(before: seq<T>, r: Read<seq<T>>): Read<seq<T>> {
    match r
    case Fail => Fail
    case Read(v, rest) => Read(before + v, rest)
  }

  lemma JoinedToNothing<T>(r: Read<seq<T>>)
    ensures Joined([], r) == r
  {
    if r.Read? {
      assert [] + r.value == r.value;
    }
  }

  lemma JoinedTwice<T>(a: seq<T>, b: seq<T>, r: Read<seq<T>>)
    ensures Joined(a, Joined(b, r)) == Joined(a + b, r)
  {
    if r.Read? {
      assert a + (b + r.value) == a + b + r.value;
    }
  }

  /**
   * Is c, at the front of an unread text, the mark that its first token stands for, if that is a mark behind
   * an item?
   */
  predicate NextMark(c: char, ts: seq<Token>) {
    && (c == ',' <==> |ts| > 0 && ts[0] == Comma)
    && (c == ']' <==> |ts| > 0 && ts[0] == ArrayClose)
    && (c == '}' <==> |ts| > 0 && ts[0] == ObjectClose)
  }

  lemma DropOne(s: string, p: nat)
    requires p < |s|
    ensures s[p..][1..] == s[p + 1..]
  {
  }

  /** What follows an item of a list, in the terms of what was read before it. */
  lemma MoreElementsAre(before: seq<Value>, item: Value, ts: seq<Token>)
    ensures var r := MoreElements([item], ts);
            if |ts| == 0 || (ts[0] != ArrayClose && ts[0] != Comma) then r == Fail
            else if ts[0] == ArrayClose then Joined(before, r) == Read(before + [item], ts[1..])
            else Joined(before, r) == Joined(before + [item], ReadElements(ts[1..]))
  {
    hide ReadElements;
    if |ts| > 0 {
      JoinedTwice(before, [item], ReadElements(ts[1..]));
    }
  }

  lemma MoreMembersAre(before: seq<Field>, item: Field, ts: seq<Token>)
    ensures var r := MoreMembers([item], ts);
            if |ts| == 0 || (ts[0] != ObjectClose && ts[0] != Comma) then r == Fail
            else if ts[0] == ObjectClose then Joined(before, r) == Read(before + [item], ts[1..])
            else Joined(before, r) == Joined(before + [item], ReadMembers(ts[1..]))
  {
    hide ReadMembers;
    if |ts| > 0 {
      JoinedTwice(before, [item], ReadMembers(ts[1..]));
    }
  }

  /** What the first token of an unread text says about its first character, and back. */
  lemma FirstToken(t: string)
    requires |t| > 0 ==> !IsBlank(t[0])
    ensures |t| == 0 <==> |Tokens(t)| == 0
    ensures |t| > 0 ==> (t[0] == '{' <==> Tokens(t)[0] == ObjectOpen)
    ensures |t| > 0 ==> (t[0] == '[' <==> Tokens(t)[0] == ArrayOpen)
    ensures |t| > 0 ==> (t[0] == '}' <==> Tokens(t)[0] == ObjectClose)
    ensures |t| > 0 ==> (t[0] == ']' <==> Tokens(t)[0] == ArrayClose)
    ensures |t| > 0 ==> (t[0] == ':' <==> Tokens(t)[0] == Colon)
    ensures |t| > 0 ==> (t[0] == ',' <==> Tokens(t)[0] == Comma)
    ensures |t| > 0 && IsPunctuation(t[0]) ==> Tokens(t)[1..] == Tokens(t[1..])
    ensures |t| > 0 && Tokens(t)[0].Text? ==> t[0] == '"'
    ensures |t| > 0 && t[0] == '"' ==> Tokens(t) == AfterQuote(t)
  {
  }

  predicate IsPunctuation(c: char) {
    c == '{' || c == '}' || c == '[' || c == ']' || c == ':' || c == ','
  }

  /** Where no punctuation mark, quote or word begins there is a number or nothing readable. */
  lemma NumberToken(t: string)
    requires |t| > 0 && !IsBlank(t[0]) && !IsPunctuation(t[0])
    requires t[0] != '"' && t[0] != 't' && t[0] != 'f' && t[0] != 'n'
    ensures Tokens(t) == if HasDigits(t) then [Numeral(NumberValue(t))] + Tokens(t[NumberEnd(t)..]) else [Bad]
    ensures HasDigits(t) ==> NumberEnd(t) > 0
  {
    hide NumberValue, NumberEnd, StringBody;
    assert HasDigits(t) ==> NumberEnd(t) > 0;
    hide HasDigits;
    assert Scan(t) == if HasDigits(t) then Scanned(Numeral(NumberValue(t)), NumberEnd(t)) else Scanned(Bad, 0);
    hide Scan;
  }

  lemma NoNumber(t: string)
    requires |t| > 0 ==> IsPunctuation(t[0])
    ensures !HasDigits(t)
  {
    hide NumberValue;
  }

  lemma WordToken(t: string)
    requires |t| > 0 && (t[0] == 't' || t[0] == 'f' || t[0] == 'n')
    ensures Tokens(t) ==
      if "true" <= t then [Flag(true)] + Tokens(t[4..])
      else if "false" <= t then [Flag(false)] + Tokens(t[5..])
      else if "null" <= t then [Nothing] + Tokens(t[4..])
      else [Bad]
  {
    hide HasDigits, NumberValue, NumberEnd, StringBody;
    assert Scan(t) ==
      if "true" <= t then Scanned(Flag(true), 4)
      else if "false" <= t then Scanned(Flag(false), 5)
      else if "null" <= t then Scanned(Nothing, 4)
      else Scanned(Bad, 0);
    hide Scan;
  }

  /** Reading a value off its first token. */
  lemma FirstValue(ts: seq<Token>)
    requires |ts| > 0
    ensures ts[0].Text? ==> ReadValue(ts) == Read(String(ts[0].str), ts[1..])
    ensures ts[0].Numeral? ==> ReadValue(ts) == Read(Number(ts[0].number), ts[1..])
    ensures ts[0].Flag? ==> ReadValue(ts) == Read(Bool(ts[0].flag), ts[1..])
    ensures ts[0].Nothing? ==> ReadValue(ts) == Read(Null, ts[1..])
    ensures ts[0] in {ObjectClose, ArrayClose, Colon, Comma, Bad} ==> ReadValue(ts) == Fail
    ensures ts[0] == ObjectOpen ==> ReadValue(ts) == ReadObject(ts[1..])
    ensures ts[0] == ArrayOpen ==> ReadValue(ts) == ReadArray(ts[1..])
  {
  }

  /** An object behind its opening brace. */
  function ReadObject(ts: seq<Token>): Read<Value> {
    if |ts| > 0 && ts[0] == ObjectClose then Read(Object([]), ts[1..]) else
    match ReadMembers(ts)
    case Fail => Fail
    case Read(fields, rest) => Read(Object(fields), rest)
  }

  /** An array behind its opening bracket. */
  function ReadArray(ts: seq<Token>): Read<Value> {
    if |ts| > 0 && ts[0] == ArrayClose then Read(Array([]), ts[1..]) else
    match ReadElements(ts)
    case Fail => Fail
    case Read(items, rest) => Read(Array(items), rest)
  }

  /** The tokens of a text that starts with a quote. */
  function AfterQuote(t: string): seq<Token>
    requires |t| > 0
  {
    match StringBody(t[1..])
    case Broken => [Bad]
    case Body(text, used) => [Text(text)] + Tokens(t[1 + used..])
  }

  lemma PrependTwice(a: string, k: nat, b: string, n: nat, body: Body)
    ensures Prepend(a, k, Prepend(b, n, body)) == Prepend(a + b, k + n, body)
  {
    if body.Body? {
      assert a + (b + body.text) == a + b + body.text;
    }
  }

  class JsonParser {
    const s: string
    var p: nat

    constructor (text: string)
      ensures s == text && p == 0
    {
      s := text;
      p := 0;
    }

    ghost predicate Inside()
      reads this`p
    {
      p <= |s|
    }

    /** The tokens not yet consumed. */
    ghost function Ahead(): seq<Token>
      requires Inside()
      reads this`p
    {
      Tokens(s[p..])
    }

    function Peek(): (c: char)
      reads this`p
    {
      if p < |s| then s[p] else '\0'
    }

    method SkipWs()
      requires Inside()
      modifies this`p
      ensures Inside() && old(p) <= p && Ahead() == old(Ahead())
      ensures p < |s| ==> !IsBlank(s[p])
      ensures forall i :: old(p) <= i < p ==> s[i] in " \t\n\r"
      ensures p < |s| ==> s[p] !in " \t\n\r"
    {
      while p < |s|
        invariant Inside() && old(p) <= p && Ahead() == old(Ahead())
        invariant forall i :: old(p) <= i < p ==> s[i] in " \t\n\r"
      {
        if IsBlank(s[p]) {
          DropOne(s, p);
          p := p + 1;
        } else {
          break;
        }
      }
    }

    /** Steps over a punctuation mark. */
    method SkipMark()
      requires p < |s| && IsPunctuation(s[p])
      modifies this`p
      ensures p == old(p) + 1 && Inside() && |old(Ahead())| > 0 && Ahead() == old(Ahead())[1..]
    {
      hide Tokens, StringBody;
      FirstToken(s[p..]);
      DropOne(s, p);
      p := p + 1;
    }

    method ParseString() returns (ok: bool, out: string)
      requires Inside()
      modifies this`p
      ensures Inside() && old(p) <= p
      ensures ok ==> old(p) < |s| && s[old(p)] == '"'
      ensures ok ==> old(p) < p && StringBody(s[old(p) + 1..]) == Body(out, p - old(p) - 1)
      ensures !ok && old(p) < |s| && s[old(p)] == '"' ==> StringBody(s[old(p) + 1..]) == Broken
    {
      hide Utf8, Hex4, HexPart, Escaped;
      out := "";
      if Peek() != '"' {
        return false, out;
      }
      p := p + 1;
      ghost var start := p;
      while p < |s|
        invariant start <= p <= |s|
        invariant StringBody(s[start..]) == Prepend(out, p - start, StringBody(s[p..]))
        decreases |s| - p
      {
        ghost var here, sofar := p, out;
        ghost var body := s[here..];
        var c := s[p];
        p := p + 1;
        if c == '"' {
          return true, out;
        }
        if c != '\\' {
          out := out + [c];
          PrependTwice(sofar, here - start, [c], 1, StringBody(s[p..]));
          continue;
        }
        if p >= |s| {
          return false, out;
        }
        var e := s[p];
        p := p + 1;
        assert e == body[1] && body[2..] == s[p..];
        if e == 'u' {
          var read, code := ParseHex4();
          if !read {
            return false, out;
          }
          out := out + Utf8(code);
          assert body[6..] == s[p..];
          PrependTwice(sofar, here - start, Utf8(code), 6, StringBody(s[p..]));
        } else if Escaped(e).Some? {
          out := out + [Escaped(e).value];
          PrependTwice(sofar, here - start, [Escaped(e).value], 2, StringBody(s[p..]));
        } else {
          return false, out;
        }
      }
      return false, out;
    }

    /** The four digits of a \u escape; the source has this loop inside ParseString. */
    method ParseHex4() returns (ok: bool, code: nat)
      requires Inside()
      modifies this`p
      ensures Inside() && old(p) <= p
      ensures ok ==> p == old(p) + 4 && Hex4(s[old(p)..]) == Some(code)
      ensures !ok ==> Hex4(s[old(p)..]) == None
    {
      code := 0;
      if p + 4 > |s| {
        return false, code;
      }
      ghost var t := s[p..];
      var i := 0;
      while i < 4
        invariant 0 <= i <= 4 && p == old(p) + i && p + 4 - i <= |s|
        invariant forall k :: 0 <= k < i ==> IsHex(t[k])
        invariant code == HexPart(t, i)
      {
        var h := s[p];
        assert h == t[i];
        p := p + 1;
        code := code * 0x10;
        if !IsHex(h) {
          return false, code;
        }
        code := code + HexValue(h);
        i := i + 1;
      }
      return true, code;
    }

    /** A run of digits; `start` is where the number being read began. */
    method SkipDigits(ghost start: nat) returns (any: bool)
      requires start <= p && Inside()
      modifies this`p
      ensures old(p) <= p && Inside() && (any <==> old(p) < p)
      ensures p - start == DigitsEnd(s[start..], old(p) - start)
    {
      any := false;
      while p < |s| && IsDigit(s[p])
        invariant old(p) <= p && Inside() && (any <==> old(p) < p)
        invariant DigitsEnd(s[start..], p - start) == DigitsEnd(s[start..], old(p) - start)
      {
        assert s[start..][p - start] == s[p];
        p := p + 1;
        any := true;
      }
      assert p < |s| ==> s[start..][p - start] == s[p];
    }

    /** The optional exponent of the number that began at `start`; inline in the source's ParseNumber. */
    method SkipExponent(ghost start: nat)
      requires start <= p && Inside() && p - start == FractionEnd(s[start..])
      modifies this`p
      ensures old(p) <= p && Inside() && p - start == NumberEnd(s[start..])
    {
      hide DigitsEnd, FractionEnd;
      ghost var t := s[start..];
      assert p < |s| ==> t[p - start] == s[p];
      if p < |s| && (s[p] == 'e' || s[p] == 'E') {
        p := p + 1;
        assert p < |s| ==> t[p - start] == s[p];
        if p < |s| && (s[p] == '-' || s[p] == '+') {
          p := p + 1;
        }
        var _ := SkipDigits(start);
      }
    }

    /** The optional point and the digits behind it. */
    method SkipFraction(ghost start: nat) returns (any: bool)
      requires start <= p && Inside() && p - start == WholeEnd(s[start..])
      modifies this`p
      ensures old(p) <= p && Inside() && p - start == FractionEnd(s[start..])
      ensures any <==> FractionFrom(s[start..]) < FractionEnd(s[start..])
    {
      hide DigitsEnd, WholeEnd;
      assert p < |s| ==> s[start..][p - start] == s[p];
      any := false;
      if p < |s| && s[p] == '.' {
        p := p + 1;
        any := SkipDigits(start);
      }
    }

    /** The characters of a number; inline in the source's ParseNumber. */
    method SkipNumber() returns (any: bool)
      requires Inside()
      modifies this`p
      ensures Inside() && old(p) <= p && p - old(p) == NumberEnd(s[old(p)..])
      ensures any <==> HasDigits(s[old(p)..])
    {
      hide DigitsEnd, NumberEnd, ExponentFrom;
      ghost var from := p;
      ghost var t := s[from..];
      if Peek() == '-' || Peek() == '+' {
        p := p + 1;
      }
      assert p - from == SignEnd(t, 0);
      any := SkipDigits(from);
      assert p - from == WholeEnd(t) && (any <==> SignEnd(t, 0) < WholeEnd(t));
      hide WholeEnd, SignEnd, FractionEnd, FractionFrom;
      var more := SkipFraction(from);
      any := any || more;
      SkipExponent(from);
    }

    method ParseNumber() returns (ok: bool, v: Value)
      requires Inside()
      modifies this`p
      ensures Inside() && old(p) <= p
      ensures ok <==> HasDigits(s[old(p)..])
      ensures ok ==> v == Number(NumberValue(s[old(p)..])) && p == old(p) + NumberEnd(s[old(p)..])
    {
      hide NumberValue, NumberEnd, HasDigits;
      var start := p;
      var any := SkipNumber();
      if !any {
        return false, Null;
      }
      assert s[start..p] == s[start..][..p - start];
      NumberIsLocal(s[start..], s[start..p]);
      return true, Number(NumberValue(s[start..p]));
    }

    method ParseValue() returns (ok: bool, v: Value)
      requires Inside() && (p < |s| ==> !IsBlank(s[p]))
      modifies this`p
      ensures Inside() && old(p) <= p && (ok ==> old(p) < p)
      ensures Agrees(ok, v, ReadValue(old(Ahead())), Ahead())
      decreases |s| - p, 2
    {
      hide Tokens, StringBody, HasDigits, NumberValue, NumberEnd, ReadValue;
      ghost var t := s[p..];
      FirstToken(t);
      if p < |s| {
        FirstValue(Tokens(t));
      }
      v := Null;
      match Peek() {
        case '{' => ok, v := ParseObject();
        case '[' => ok, v := ParseArray();
        case '"' => {
          var str;
          ok, str := ParseString();
          v := String(str);
          if ok {
            assert t[1 + (p - old(p) - 1)..] == s[p..];
          }
        }
        case 't' => ok, v := ParseBool();
        case 'f' => ok, v := ParseBool();
        case 'n' => ok := ParseNull();
        case _ => {
          if p < |s| && !IsPunctuation(s[p]) {
            NumberToken(t);
          } else {
            NoNumber(t);
          }
          ok, v := ParseNumber();
          if ok {
            assert t[p - old(p)..] == s[p..];
          }
        }
      }
    }

    method ParseBool() returns (ok: bool, v: Value)
      requires p < |s| && (s[p] == 't' || s[p] == 'f')
      modifies this`p
      ensures Inside() && old(p) <= p && (ok ==> old(p) < p)
      ensures Agrees(ok, v, ReadValue(old(Ahead())), Ahead())
    {
      hide Tokens, ReadValue;
      ghost var t := s[p..];
      WordToken(t);
      FirstValue(Tokens(t));
      v := Null;
      if "true" <= s[p..] {
        p := p + 4;
        assert t[4..] == s[p..];
        return true, Bool(true);
      }
      if "false" <= s[p..] {
        p := p + 5;
        assert t[5..] == s[p..];
        return true, Bool(false);
      }
      return false, v;
    }

    method ParseNull() returns (ok: bool)
      requires p < |s| && s[p] == 'n'
      modifies this`p
      ensures Inside() && old(p) <= p && (ok ==> old(p) < p)
      ensures Agrees(ok, Null, ReadValue(old(Ahead())), Ahead())
    {
      hide Tokens, ReadValue;
      ghost var t := s[p..];
      WordToken(t);
      FirstValue(Tokens(t));
      if !("null" <= s[p..]) {
        return false;
      }
      p := p + 4;
      assert t[4..] == s[p..];
      return true;
    }

    method ParseObject() returns (ok: bool, v: Value)
      requires p < |s| && s[p] == '{'
      modifies this`p
      ensures Inside() && old(p) <= p && (ok ==> old(p) < p)
      ensures Agrees(ok, v, ReadValue(old(Ahead())), Ahead())
      decreases |s| - p, 1
    {
      hide Tokens, ReadValue, StringBody, ReadElements, MoreElements, ReadMember;
      FirstToken(s[p..]);
      FirstValue(Ahead());
      DropOne(s, p);
      p := p + 1;
      SkipWs();
      FirstToken(s[p..]);
      if Peek() == '}' {
        SkipMark();
        return true, Object([]);
      }
      ghost var whole := Ahead();
      var fields: seq<Field> := [];
      v := Object(fields);
      JoinedToNothing(ReadMembers(whole));
      while true
        invariant old(p) < p && Inside()
        invariant ReadMembers(whole) == Joined(fields, ReadMembers(Ahead()))
        decreases |s| - p
      {
        ghost var here := Ahead();
        var read, member := ParseMember();
        if !read {
          return false, v;
        }
        SkipWs();
        FirstToken(s[p..]);
        assert ReadMembers(here) == MoreMembers([member], Ahead());
        MoreMembersAre(fields, member, Ahead());
        hide ReadMembers, MoreMembers;
        fields := fields + [member];
        var c := Peek();
        if c == ',' {
          SkipMark();
          continue;
        }
        if c == '}' {
          SkipMark();
          return true, Object(fields);
        }
        return false, v;
      }
    }

    /** A key, a colon and a value; the source has these steps inside the loop of ParseObject. */
    method ParseMember() returns (ok: bool, member: Field)
      requires Inside()
      modifies this`p
      ensures Inside() && old(p) <= p && (ok ==> old(p) < p)
      ensures Agrees(ok, member, ReadMember(old(Ahead())), Ahead())
      decreases |s| - p, 3
    {
      hide Tokens, ReadValue, StringBody;
      SkipWs();
      ghost var here, from := Ahead(), p;
      FirstToken(s[p..]);
      member := Field("", Null);
      if Peek() != '"' {
        return false, member;
      }
      var read, key := ParseString();
      if !read {
        return false, member;
      }
      assert s[from..][1 + (p - from - 1)..] == s[p..];
      assert here == [Text(key)] + Ahead();
      SkipWs();
      FirstToken(s[p..]);
      if Peek() != ':' {
        return false, member;
      }
      SkipMark();
      SkipWs();
      assert here[2..] == Ahead();
      var child;
      read, child := ParseValue();
      return read, Field(key, child);
    }

    method ParseArray() returns (ok: bool, v: Value)
      requires p < |s| && s[p] == '['
      modifies this`p
      ensures Inside() && old(p) <= p && (ok ==> old(p) < p)
      ensures Agrees(ok, v, ReadValue(old(Ahead())), Ahead())
      decreases |s| - p, 1
    {
      hide Tokens, ReadValue, StringBody, ReadMembers, MoreMembers;
      FirstToken(s[p..]);
      FirstValue(Ahead());
      DropOne(s, p);
      p := p + 1;
      SkipWs();
      FirstToken(s[p..]);
      if Peek() == ']' {
        SkipMark();
        return true, Array([]);
      }
      ghost var whole := Ahead();
      var items: seq<Value> := [];
      v := Array(items);
      JoinedToNothing(ReadElements(whole));
      while true
        invariant old(p) < p && Inside()
        invariant ReadElements(whole) == Joined(items, ReadElements(Ahead()))
        decreases |s| - p
      {
        hide MoreElements;
        ghost var here := Ahead();
        var read, child := ParseElement();
        if !read {
          return false, v;
        }
        assert ReadElements(here) == MoreElements([child], Ahead());
        MoreElementsAre(items, child, Ahead());
        hide ReadElements;
        items := items + [child];
        var c := Peek();
        if c == ',' {
          SkipMark();
          continue;
        }
        if c == ']' {
          SkipMark();
          return true, Array(items);
        }
        return false, v;
      }
    }

    /** A value with the white space around it; the source has these steps inside the loop of ParseArray. */
    method ParseElement() returns (ok: bool, v: Value)
      requires Inside()
      modifies this`p
      ensures Inside() && old(p) <= p && (ok ==> old(p) < p)
      ensures Agrees(ok, v, ReadValue(old(Ahead())), Ahead())
      ensures ok ==> NextMark(Peek(), Ahead())
      decreases |s| - p, 3
    {
      hide Tokens, ReadValue;
      SkipWs();
      ok, v := ParseValue();
      if ok {
        SkipWs();
        FirstToken(s[p..]);
      }
    }

    method Parse() returns (ok: bool, v: Value)
      requires p == 0
      modifies this`p
      ensures Inside()
      ensures ok <==> Parsed(s).Some?
      ensures ok ==> Parsed(s) == Some(v)
    {
      assert s[0..] == s;
      SkipWs();
      ok, v := ParseValue();
      if !ok {
        return;
      }
      SkipWs();
      if p != |s| {
        return false, v;
      }
    }
  }
}
