/** Colour codes and names (`utils/color.go`): `#RRGGBB` text, the two package maps that `init`
    fills, and the round trips between a number, its code and its name. */
module Colors {
  import opened Strings

  /** A `uint` of a 64-bit build. */
  type Color = c: nat | c < 0x1_0000_0000_0000_0000

  const INT64: int := 0x8000_0000_0000_0000

  // ---------- Hexadecimal text ----------

  predicate IsDigit(b: char) {
    '0' <= b <= '9' || 'A' <= b <= 'F' || 'a' <= b <= 'f'
  }

  function DigitValue(b: char): (d: nat)
    requires IsDigit(b)
    ensures d < 16
  {
    if b <= '9' then (b - '0') as nat else if b <= 'F' then (b - 'A') as nat + 10 else (b - 'a') as nat + 10
  }

  function UpperByte(b: char): char {
    if 'a' <= b <= 'z' then b - 'a' + 'A' else b
  }

  /** Upper-casing of characters: as known for ASCII; elsewhere open, but never to an ASCII small
      letter. */
  type Folding = f: char -> char | forall c :: (c < '\U{80}' ==> f(c) == UpperByte(c)) && !('a' <= f(c) <= 'z')
    witness UpperByte

  function Digit(d: nat): (r: char)
    requires d < 16
    ensures IsDigit(r) && DigitValue(r) == d && UpperByte(r) == r
  {
    if d < 10 then '0' + d as char else 'A' + (d - 10) as char
  }

  predicate AllDigits(s: string) {
    forall i :: 0 <= i < |s| ==> IsDigit(s[i])
  }

  function Value(s: string): nat
    requires AllDigits(s)
  {
    if s == "" then 0 else Value(s[..|s| - 1]) * 16 + DigitValue(s[|s| - 1])
  }

  predicate IsUpper(s: string) {
    forall i :: 0 <= i < |s| ==> s[i] < '\U{80}' && UpperByte(s[i]) == s[i]
  }

  function Hex(n: nat): (s: string)
    ensures s != "" && AllDigits(s) && IsUpper(s)
  {
    if n < 16 then [Digit(n)] else Hex(n / 16) + [Digit(n % 16)]
  }

  lemma {:induction false} ValueOfHex(n: nat)
    ensures Value(Hex(n)) == n
  {
    if n >= 16 {
      ValueOfHex(n / 16);
      var s := Hex(n);
      assert s[..|s| - 1] == Hex(n / 16);
    } else {
      assert Hex(n)[..0] == "" && Value("") == 0;
    }
  }

  /** Zeros in front up to the width, as `%0wX` prints. */
  function Zeros(s: string, width: nat): (r: string)
    ensures |r| >= width && |r| >= |s|
    ensures AllDigits(s) ==> AllDigits(r)
    ensures IsUpper(s) ==> IsUpper(r)
    decreases width - |s|
  {
    if |s| >= width then s else Zeros("0" + s, width)
  }

  lemma {:induction false} ValueOfZero(s: string)
    requires AllDigits(s)
    ensures AllDigits("0" + s) && Value("0" + s) == Value(s)
  {
    var z := "0" + s;
    if s == "" {
      assert z[..0] == "" && Value("") == 0;
    } else {
      ValueOfZero(s[..|s| - 1]);
      assert z[..|z| - 1] == "0" + s[..|s| - 1];
    }
  }

  lemma {:induction false} ValueOfZeros(s: string, width: nat)
    requires AllDigits(s)
    ensures Value(Zeros(s, width)) == Value(s)
    decreases width - |s|
  {
    if |s| < width {
      ValueOfZero(s);
      ValueOfZeros("0" + s, width);
    }
  }

  /** The alpha byte decides the width; it is the one under the mask 0xFF000000. */
  function ToRGB(c: Color): string {
    "#" + Zeros(Hex(c), if c / 0x100_0000 % 0x100 != 0 then 8 else 6)
  }

  lemma RGBShape(c: Color)
    ensures var s := ToRGB(c);
            |s| >= 7 && s[0] == '#' && AllDigits(s[1..]) && Value(s[1..]) == c && IsUpper(s)
    ensures ',' !in ToRGB(c) && ' ' !in ToRGB(c)
  {
    ValueOfHex(c);
    var w := if c / 0x100_0000 % 0x100 != 0 then 8 else 6;
    ValueOfZeros(Hex(c), w);
    var s := ToRGB(c);
    assert s[1..] == Zeros(Hex(c), w);
    forall i | 0 <= i < |s|
      ensures s[i] < '\U{80}' && UpperByte(s[i]) == s[i] && s[i] != ',' && s[i] != ' '
    {
      assert i > 0 ==> s[i] == s[1..][i - 1];
    }
  }

  function Power16(k: nat): (p: nat)
    ensures p > 0
  {
    if k == 0 then 1 else 16 * Power16(k - 1)
  }

  lemma {:induction false} HexLength(n: nat, k: nat)
    requires k > 0
    ensures |Hex(n)| <= k <==> n < Power16(k)
    decreases k
  {
    if k == 1 {
      assert Power16(1) == 16 * Power16(0);
    } else {
      HexLength(n / 16, k - 1);
      if n < 16 {
        assert Power16(k) >= 16;
      }
    }
  }

  lemma {:induction false} ZerosLength(s: string, width: nat)
    ensures |Zeros(s, width)| == if |s| >= width then |s| else width
    decreases width - |s|
  {
    if |s| < width {
      ZerosLength("0" + s, width);
    }
  }

  lemma Powers()
    ensures Power16(6) == 0x100_0000 && Power16(8) == 0x1_0000_0000
  {
    assert Power16(4) == 0x1_0000;
  }

  /** Three bytes print as #RRGGBB, four as #AARRGGBB, and a longer number with all its digits. */
  lemma CodeWidth(c: Color)
    ensures |ToRGB(c)| == if c < 0x100_0000 then 7 else if c < 0x1_0000_0000 then 9 else 1 + |Hex(c)|
  {
    hide Hex, Zeros, Power16;
    Powers();
    HexLength(c, 6);
    HexLength(c, 8);
    ZerosLength(Hex(c), 6);
    ZerosLength(Hex(c), 8);
  }

  /** Two numbers never share a code. */
  lemma CodesDiffer(c: Color, d: Color)
    ensures ToRGB(c) == ToRGB(d) <==> c == d
  {
    RGBShape(c);
    RGBShape(d);
  }

  // ---------- Text folding ----------

  function Upper(fold: Folding, s: string): (u: string)
    ensures |u| == |s| && forall i :: 0 <= i < |s| ==> u[i] == fold(s[i])
  {
    seq(|s|, i requires 0 <= i < |s| => fold(s[i]))
  }

  lemma NothingIsUpper()
    ensures IsUpper("")
  {
  }

  predicate Letters(s: string) {
    forall i :: 0 <= i < |s| ==> 'A' <= s[i] <= 'Z' || 'a' <= s[i] <= 'z'
  }

  lemma UpperOfUpper(fold: Folding, s: string)
    ensures IsUpper(s) ==> Upper(fold, s) == s
    ensures Letters(s) ==> IsUpper(Upper(fold, s))
  {
  }

  function NoSpaces(s: string): (t: string)
    ensures ' ' !in t
    ensures ' ' !in s ==> t == s
  {
    if s == "" then "" else (if s[0] == ' ' then "" else [s[0]]) + NoSpaces(s[1..])
  }

  function Folded(fold: Folding, value: string): string {
    Upper(fold, NoSpaces(value))
  }

  lemma FoldedOfPlain(fold: Folding, s: string)
    requires ' ' !in s && IsUpper(s)
    ensures Folded(fold, s) == s
  {
    UpperOfUpper(fold, s);
  }

  // ---------- The two maps ----------

  datatype Entry = Entry(name: string, rgb: string)

  /** Names are words of letters that differ even without case; codes may repeat. */
  ghost predicate PaletteOk(fold: Folding, order: seq<Entry>) {
    && (forall i :: 0 <= i < |order| ==> order[i].name != "" && Letters(order[i].name))
    && (forall i, j :: 0 <= i < j < |order| ==> Upper(fold, order[i].name) != Upper(fold, order[j].name))
  }

  function Rgbs(fold: Folding, order: seq<Entry>): map<string, string> {
    if order == [] then map[]
    else var e := order[|order| - 1]; Rgbs(fold, order[..|order| - 1])[Upper(fold, e.name) := e.rgb]
  }

  function Names(fold: Folding, order: seq<Entry>): map<string, string> {
    if order == [] then map[]
    else var e := order[|order| - 1]; Names(fold, order[..|order| - 1])[e.rgb := Upper(fold, e.name)]
  }

  /** Every name keeps its own code, and there are no other names. */
  lemma {:induction false} RgbsAre(fold: Folding, order: seq<Entry>)
    requires PaletteOk(fold, order)
    ensures forall i :: 0 <= i < |order| ==> Get(Rgbs(fold, order), Upper(fold, order[i].name)) == order[i].rgb
    ensures forall k :: k in Rgbs(fold, order) ==> exists i :: 0 <= i < |order| && k == Upper(fold, order[i].name)
  {
    if order != [] {
      var front := order[..|order| - 1];
      var e := order[|order| - 1];
      RgbsAre(fold, front);
      forall i | 0 <= i < |order|
        ensures Get(Rgbs(fold, order), Upper(fold, order[i].name)) == order[i].rgb
      {
        if i < |front| {
          assert front[i] == order[i];
        }
      }
      forall k | k in Rgbs(fold, order)
        ensures exists i :: 0 <= i < |order| && k == Upper(fold, order[i].name)
      {
        if k == Upper(fold, e.name) {
          assert k == Upper(fold, order[|order| - 1].name);
        } else {
          var i :| 0 <= i < |front| && k == Upper(fold, front[i].name);
          assert order[i] == front[i];
        }
      }
    }
  }

  /** A code leads to a name that has it: the one met last. */
  lemma {:induction false} NamesAre(fold: Folding, order: seq<Entry>, rgb: string)
    ensures rgb in Names(fold, order) <==> exists i :: 0 <= i < |order| && order[i].rgb == rgb
    ensures rgb in Names(fold, order) ==>
              exists i :: 0 <= i < |order| && order[i].rgb == rgb && Names(fold, order)[rgb] == Upper(fold, order[i].name)
  {
    if order != [] {
      var front := order[..|order| - 1];
      NamesAre(fold, front, rgb);
      if order[|order| - 1].rgb != rgb && rgb in Names(fold, front) {
        var i :| 0 <= i < |front| && front[i].rgb == rgb && Names(fold, front)[rgb] == Upper(fold, front[i].name);
        assert order[i] == front[i];
      }
    }
  }

  ghost predicate InPalette(order: seq<Entry>, c: Color) {
    exists i :: 0 <= i < |order| && order[i].rgb == ToRGB(c)
  }

  lemma LettersUp(fold: Folding, word: string)
    requires word != "" && Letters(word)
    ensures var name := Upper(fold, word);
            name != "" && IsUpper(name) && 'A' <= name[0] <= 'Z' && ',' !in name && ' ' !in name && '#' !in name
  {
    var name := Upper(fold, word);
    forall k | 0 <= k < |name|
      ensures 'A' <= name[k] <= 'Z'
    {
      assert name[k] == fold(word[k]) == UpperByte(word[k]);
    }
  }

  lemma NameIsPlain(fold: Folding, order: seq<Entry>, name: string)
    requires PaletteOk(fold, order) && name in Rgbs(fold, order)
    ensures name != "" && IsUpper(name) && 'A' <= name[0] <= 'Z'
    ensures ',' !in name && ' ' !in name && '#' !in name
  {
    hide Rgbs, Upper, IsUpper, Letters;
    RgbsAre(fold, order);
    var i :| 0 <= i < |order| && name == Upper(fold, order[i].name);
    LettersUp(fold, order[i].name);
  }

  // ---------- What a value means ----------

  /** A name stands for its code, anything else for itself. */
  function Code(rgbs: map<string, string>, exp: string): string {
    if Get(rgbs, exp) == "" then exp else Get(rgbs, exp)
  }

  /** Some piece of the comma list stands for the colour. */
  ghost predicate Lists(fold: Folding, rgbs: map<string, string>, c: Color, value: string) {
    exists i :: 0 <= i < |Split(Folded(fold, value), ",")|
             && Split(Folded(fold, value), ",")[i] != ""
             && Code(rgbs, Split(Folded(fold, value), ",")[i]) == ToRGB(c)
  }

  lemma ListsOne(fold: Folding, rgbs: map<string, string>, c: Color, value: string)
    requires ',' !in value && ' ' !in value && IsUpper(value)
    ensures Lists(fold, rgbs, c, value) <==> value != "" && Code(rgbs, value) == ToRGB(c)
  {
    hide Code, ToRGB, Split;
    FoldedOfPlain(fold, value);
    assert value[..|value|] == value;
    SplitAtFirst(value, ',', |value|);
    assert Split(Folded(fold, value), ",") == [value];
    assert Split(Folded(fold, value), ",")[0] == value;
  }

  /** `strconv.ParseInt(s, 16, 64)`: an optional sign, then digits only, then the range. */
  function ParseInt(s: string): Option<int> {
    var signed := s != "" && (s[0] == '+' || s[0] == '-');
    var digits := if signed then s[1..] else s;
    if digits == "" || !AllDigits(digits) then None
    else if signed && s[0] == '-' then if Value(digits) > INT64 then None else Some(0 - Value(digits))
    else if Value(digits) >= INT64 then None
    else Some(Value(digits))
  }

  function TrimPrefix(s: string, prefix: string): string {
    if |prefix| <= |s| && s[..|prefix|] == prefix then s[|prefix|..] else s
  }

  predicate IsSign(s: string) { s == "" || s == "+" || s == "-" }

  predicate IsPrefix(s: string) { s == "" || s == "#" || s == "0x" || s == "0x#" }

  /** Text of an optional sign and digits for a number of 64 bits. */
  ghost predicate Spells(s: string, n: int) {
    exists sign, digits ::
      && IsSign(sign) && AllDigits(digits) && digits != "" && s == sign + digits
      && n == (if sign == "-" then 0 - Value(digits) else Value(digits)) && -INT64 <= n < INT64
  }

  lemma SpelledOut(s: string, sign: string, digits: string)
    requires IsSign(sign) && AllDigits(digits) && digits != "" && s == sign + digits
    ensures ParseInt(s) ==
            var n := if sign == "-" then 0 - Value(digits) else Value(digits);
            if -INT64 <= n < INT64 then Some(n) else None
  {
    assert IsDigit(digits[0]);
    if sign != "" {
      assert s[1..] == digits && s[0] == sign[0];
    } else {
      assert s == digits;
    }
    hide Value, AllDigits;
  }

  lemma Apart(s: string) returns (sign: string, digits: string)
    ensures s == sign + digits && IsSign(sign)
    ensures ParseInt(s).Some? ==> digits != "" && AllDigits(digits)
  {
    sign := if s != "" && (s[0] == '+' || s[0] == '-') then s[..1] else "";
    digits := if sign == "" then s else s[1..];
    assert sign != "" ==> s[..1] == [s[0]];
  }

  lemma ParseIff(s: string, n: int)
    ensures ParseInt(s) == Some(n) <==> Spells(s, n)
  {
    hide ParseInt, IsSign, AllDigits, Value;
    if ParseInt(s) == Some(n) {
      var sign, digits := Apart(s);
      SpelledOut(s, sign, digits);
    }
    if Spells(s, n) {
      var sign, digits :|
        && IsSign(sign) && AllDigits(digits) && digits != "" && s == sign + digits
        && n == (if sign == "-" then 0 - Value(digits) else Value(digits)) && -INT64 <= n < INT64;
      SpelledOut(s, sign, digits);
    }
  }

  /** What a code means as a number: its text behind an optional prefix. */
  ghost predicate Denotes(code: string, n: int) {
    exists prefix, s :: IsPrefix(prefix) && code == prefix + s && Spells(s, n)
  }

  lemma SpellsPlain(s: string, n: int)
    requires Spells(s, n)
    ensures s != "" && s[0] != '#' && !("0x" <= s)
  {
    var sign, digits :| IsSign(sign) && AllDigits(digits) && digits != "" && s == sign + digits;
    assert s[0] == if sign == "" then digits[0] else sign[0];
    if |s| >= 2 {
      assert s[1] == digits[1 - |sign|];
    }
  }

  lemma TrimmedIs(code: string, prefix: string, s: string, n: int)
    requires IsPrefix(prefix) && code == prefix + s && Spells(s, n)
    ensures TrimPrefix(TrimPrefix(code, "0x"), "#") == s
  {
    SpellsPlain(s, n);
    hide Spells;
    assert "0x" <= code <==> prefix == "0x" || prefix == "0x#" by {
      assert prefix == "" ==> code == s;
      assert prefix == "#" ==> code[0] == '#';
    }
    var rest := TrimPrefix(code, "0x");
    assert rest == (if prefix == "#" || prefix == "0x#" then "#" else "") + s;
    assert rest[..1] == [rest[0]];
  }

  /** The two trimmings and the parser find exactly the number a code denotes. */
  lemma TrimmedIff(code: string, n: int)
    ensures ParseInt(TrimPrefix(TrimPrefix(code, "0x"), "#")) == Some(n) <==> Denotes(code, n)
  {
    var half := TrimPrefix(code, "0x");
    var s := TrimPrefix(half, "#");
    var a, b := if |half| < |code| then "0x" else "", if |s| < |half| then "#" else "";
    assert half == b + s && code == a + half;
    assert code == (a + b) + s && IsPrefix(a + b);
    ParseIff(s, n);
    hide ParseInt, TrimPrefix, Spells;
    if Denotes(code, n) {
      var prefix, s' :| IsPrefix(prefix) && code == prefix + s' && Spells(s', n);
      TrimmedIs(code, prefix, s', n);
    }
  }

  lemma DenotesInRange(code: string, n: int)
    requires Denotes(code, n)
    ensures -INT64 <= n < INT64
  {
  }

  function Parsed(fold: Folding, rgbs: map<string, string>, value: string): Option<int> {
    ParseInt(TrimPrefix(TrimPrefix(Code(rgbs, Folded(fold, value)), "0x"), "#"))
  }

  lemma ParsedOfCode(c: Color)
    ensures ParseInt(TrimPrefix(TrimPrefix(ToRGB(c), "0x"), "#")) == if c < INT64 then Some(c) else None
  {
    RGBShape(c);
    var s := ToRGB(c);
    hide ToRGB;
    assert s[..2][0] == '#';
    assert TrimPrefix(s, "0x") == s;
    assert s[..1] == "#";
    assert TrimPrefix(s, "#") == s[1..];
    assert IsDigit(s[1..][0]);
  }

  // ---------- The package ----------

  class Tables {
    var nameRgb: map<string, string>
    var rgbName: map<string, string>
    const fold: Folding
    ghost const order: seq<Entry>

    ghost predicate Valid()
      reads this
    {
      nameRgb == Rgbs(fold, order) && rgbName == Names(fold, order)
    }

    /** `init`; the order is the one the map iteration happened to take. */
    constructor (fold: Folding, order: seq<Entry>)
      ensures this.order == order && this.fold == fold && Valid()
    {
      this.order, this.fold := order, fold;
      nameRgb, rgbName := map[], map[];
      new;
      assert order[..0] == [];
      for i := 0 to |order|
        invariant nameRgb == Rgbs(fold, order[..i]) && rgbName == Names(fold, order[..i])
      {
        var name := Upper(fold, order[i].name);
        nameRgb := nameRgb[name := order[i].rgb];
        rgbName := rgbName[order[i].rgb := name];
        assert order[..i + 1][..i] == order[..i];
      }
      assert order[..|order|] == order;
    }

    /** Some name of the table with the colour's code, in capitals, or nothing. */
    method ToColorName(c: Color) returns (name: string)
      requires Valid()
      ensures name == Get(Names(fold, order), ToRGB(c))
      ensures if InPalette(order, c) then exists i :: 0 <= i < |order| && order[i].rgb == ToRGB(c) && name == Upper(fold, order[i].name)
              else name == ""
    {
      hide ToRGB, Names;
      NamesAre(fold, order, ToRGB(c));
      name := Get(rgbName, ToRGB(c));
    }

    method ColorEq(c: Color, value: string) returns (eq: bool)
      ensures eq <==> Lists(fold, nameRgb, c, value)
    {
      hide ToRGB, Folded, Split;
      var parts := Split(Folded(fold, value), ",");
      for i := 0 to |parts|
        invariant forall k :: 0 <= k < i ==> parts[k] == "" || Code(nameRgb, parts[k]) != ToRGB(c)
      {
        if |parts[i]| == 0 {
          continue;
        }
        var rgb := Get(nameRgb, parts[i]);
        if rgb == "" {
          rgb := parts[i];
        }
        if rgb == ToRGB(c) {
          assert Code(nameRgb, parts[i]) == ToRGB(c);
          return true;
        }
      }
      return false;
    }

    /** The number that the name's code, or else the text itself, denotes. */
    method ToColor64(value: string) returns (n: int, ok: bool)
      ensures ok ==> Denotes(Code(nameRgb, Folded(fold, value)), n) && -INT64 <= n < INT64
      ensures !ok ==> n == 0 && forall m :: !Denotes(Code(nameRgb, Folded(fold, value)), m)
      ensures Parsed(fold, nameRgb, value) == if ok then Some(n) else None
    {
      hide Folded, ParseInt;
      var folded := Folded(fold, value);
      var rgb := Get(nameRgb, folded);
      if rgb == "" {
        rgb := folded;
      }
      rgb := TrimPrefix(rgb, "0x");
      rgb := TrimPrefix(rgb, "#");
      forall m: int
        ensures ParseInt(rgb) == Some(m) <==> Denotes(Code(nameRgb, folded), m)
      {
        TrimmedIff(Code(nameRgb, folded), m);
      }
      match ParseInt(rgb)
      case None => return 0, false;
      case Some(v) =>
        DenotesInRange(Code(nameRgb, folded), v);
        return v, true;
    }
  }

  // ---------- Round trips ----------

  lemma CodeOfCode(fold: Folding, order: seq<Entry>, c: Color)
    requires PaletteOk(fold, order)
    ensures Code(Rgbs(fold, order), ToRGB(c)) == ToRGB(c)
  {
    RGBShape(c);
    if ToRGB(c) in Rgbs(fold, order) {
      NameIsPlain(fold, order, ToRGB(c));
    }
  }

  /** Reading a printed code gives the number back exactly below 2^63. */
  lemma ParseOfPrint(fold: Folding, order: seq<Entry>, c: Color)
    requires PaletteOk(fold, order)
    ensures Parsed(fold, Rgbs(fold, order), ToRGB(c)) == if c < INT64 then Some(c) else None
  {
    RGBShape(c);
    FoldedOfPlain(fold, ToRGB(c));
    CodeOfCode(fold, order, c);
    ParsedOfCode(c);
  }

  /** A colour equals a printed code exactly when it is the colour that was printed. */
  lemma EqOfPrint(fold: Folding, order: seq<Entry>, c: Color, d: Color)
    requires PaletteOk(fold, order)
    ensures Lists(fold, Rgbs(fold, order), c, ToRGB(d)) <==> c == d
  {
    hide ToRGB, Code, Rgbs;
    RGBShape(d);
    ListsOne(fold, Rgbs(fold, order), c, ToRGB(d));
    CodeOfCode(fold, order, d);
    CodesDiffer(c, d);
  }

  /** The name given for a colour of the palette is a name of the table with that very code,
      whichever order the maps were filled in and however many names share the code. */
  lemma NameHasCode(fold: Folding, order: seq<Entry>, c: Color)
    requires PaletteOk(fold, order)
    ensures var name := Get(Names(fold, order), ToRGB(c));
            if InPalette(order, c) then name in Rgbs(fold, order) && Rgbs(fold, order)[name] == ToRGB(c) else name == ""
  {
    hide Rgbs, Names;
    RGBShape(c);
    NamesAre(fold, order, ToRGB(c));
    RgbsAre(fold, order);
    if InPalette(order, c) {
      var i :| 0 <= i < |order| && order[i].rgb == ToRGB(c) && Names(fold, order)[ToRGB(c)] == Upper(fold, order[i].name);
    }
  }

  /** A name stands for the colour it was asked for and for no other, and a colour outside the
      palette gets a name that stands for none. */
  lemma EqOfName(fold: Folding, order: seq<Entry>, c: Color, d: Color)
    requires PaletteOk(fold, order)
    ensures Lists(fold, Rgbs(fold, order), c, Get(Names(fold, order), ToRGB(d))) <==> InPalette(order, d) && c == d
  {
    hide Rgbs, Names, ToRGB, Upper, IsUpper, Lists;
    var name := Get(Names(fold, order), ToRGB(d));
    NameHasCode(fold, order, d);
    CodesDiffer(c, d);
    RGBShape(d);
    if InPalette(order, d) {
      NameIsPlain(fold, order, name);
    } else {
      assert IsUpper("") by {
        NothingIsUpper();
      }
    }
    ListsOne(fold, Rgbs(fold, order), c, name);
  }

  lemma ParseOfName(fold: Folding, order: seq<Entry>, c: Color)
    requires PaletteOk(fold, order) && InPalette(order, c)
    ensures Parsed(fold, Rgbs(fold, order), Get(Names(fold, order), ToRGB(c))) == if c < INT64 then Some(c) else None
  {
    var name := Get(Names(fold, order), ToRGB(c));
    NameHasCode(fold, order, c);
    RGBShape(c);
    NameIsPlain(fold, order, name);
    FoldedOfPlain(fold, name);
    ParsedOfCode(c);
  }

  /** The prefix `0x` is never trimmed: upper-casing came first, so such text is refused, spaces
      and letter case apart. */
  lemma HexPrefixRefused(fold: Folding, order: seq<Entry>, value: string)
    requires PaletteOk(fold, order) && "0X" <= Folded(fold, value)
    ensures Parsed(fold, Rgbs(fold, order), value) == None
  {
    hide Rgbs, Folded;
    var s := Folded(fold, value);
    assert s[0] == '0' && s[1] == 'X';
    if s in Rgbs(fold, order) {
      NameIsPlain(fold, order, s);
    }
    assert s[..2][1] == 'X' && "0x"[1] == 'x';
    assert TrimPrefix(s, "0x") == s;
    assert s[..1][0] == '0';
    assert TrimPrefix(s, "#") == s;
    assert !IsDigit(s[1]);
  }

  /** What text the lemma is about: text that opens with 0 and x or X once its spaces are gone. */
  lemma FoldsToHexPrefix(fold: Folding, value: string)
    requires |NoSpaces(value)| >= 2 && NoSpaces(value)[0] == '0' && NoSpaces(value)[1] in {'x', 'X'}
    ensures "0X" <= Folded(fold, value) && !("0x" <= Folded(fold, value))
  {
    hide NoSpaces;
    var s := Folded(fold, value);
    assert s[0] == '0' && s[1] == 'X';
    assert s[..2] == "0X";
  }

  // ---------- Digits, spaces and lists ----------

  const CAPITALS := "0123456789ABCDEF"
  const SMALL := "0123456789abcdef"

  /** The digits in their order. */
  lemma DigitsAre(d: nat)
    requires d < 16
    ensures Digit(d) == CAPITALS[d]
    ensures IsDigit(CAPITALS[d]) && DigitValue(CAPITALS[d]) == d && IsDigit(SMALL[d]) && DigitValue(SMALL[d]) == d
  {
  }

  /** And no other character is one. */
  lemma DigitIsOne(c: char)
    requires IsDigit(c)
    ensures c == CAPITALS[DigitValue(c)] || c == SMALL[DigitValue(c)]
  {
  }

  /** Each digit is worth sixteen times the one behind it. */
  lemma ValueMeaning(s: string, c: char)
    requires AllDigits(s) && IsDigit(c)
    ensures AllDigits(s + [c]) && Value(s + [c]) == 16 * Value(s) + DigitValue(c) && Value("") == 0
  {
    assert (s + [c])[..|s|] == s;
  }

  /** Dropping spaces keeps every other character in its place. */
  lemma {:induction false} NoSpacesSum(a: string, b: string)
    ensures NoSpaces(a + b) == NoSpaces(a) + NoSpaces(b)
    decreases |a|
  {
    if a == "" {
      assert a + b == b;
    } else {
      assert (a + b)[1..] == a[1..] + b;
      NoSpacesSum(a[1..], b);
    }
  }

  lemma NoSpacesOfOne(c: char)
    ensures NoSpaces([c]) == (if c == ' ' then "" else [c]) && NoSpaces("") == ""
  {
    assert [c][1..] == "";
  }

  lemma UpperSum(fold: Folding, a: string, b: string)
    ensures Upper(fold, a + b) == Upper(fold, a) + Upper(fold, b)
  {
  }

  lemma UpperComma(fold: Folding)
    ensures Upper(fold, ",") == ","
  {
    assert fold(',') == UpperByte(',');
  }

  lemma FoldedSum(fold: Folding, a: string, b: string)
    ensures Folded(fold, a + "," + b) == Folded(fold, a) + "," + Folded(fold, b)
  {
    NoSpacesSum(a + ",", b);
    NoSpacesSum(a, ",");
    NoSpacesOfOne(',');
    UpperComma(fold);
    hide NoSpaces, Upper;
    UpperSum(fold, NoSpaces(a) + ",", NoSpaces(b));
    UpperSum(fold, NoSpaces(a), ",");
  }

  ghost predicate SomePiece(rgbs: map<string, string>, c: Color, parts: seq<string>) {
    exists i :: 0 <= i < |parts| && parts[i] != "" && Code(rgbs, parts[i]) == ToRGB(c)
  }

  lemma SomePieceSum(rgbs: map<string, string>, c: Color, a: seq<string>, b: seq<string>)
    ensures SomePiece(rgbs, c, a + b) <==> SomePiece(rgbs, c, a) || SomePiece(rgbs, c, b)
  {
    hide Code, ToRGB;
    if i :| 0 <= i < |a| && a[i] != "" && Code(rgbs, a[i]) == ToRGB(c) {
      assert (a + b)[i] == a[i];
    }
    if i :| 0 <= i < |b| && b[i] != "" && Code(rgbs, b[i]) == ToRGB(c) {
      assert (a + b)[|a| + i] == b[i];
    }
  }

  lemma ListsIs(fold: Folding, rgbs: map<string, string>, c: Color, value: string)
    ensures Lists(fold, rgbs, c, value) <==> SomePiece(rgbs, c, Split(Folded(fold, value), ","))
  {
    hide Split, Folded, Code, ToRGB;
  }

  /** A comma list stands for what its parts stand for. */
  lemma ListsSum(fold: Folding, rgbs: map<string, string>, c: Color, a: string, b: string)
    ensures Lists(fold, rgbs, c, a + "," + b) <==> Lists(fold, rgbs, c, a) || Lists(fold, rgbs, c, b)
  {
    hide *;
    FoldedSum(fold, a, b);
    SplitSum(Folded(fold, a), ',', Folded(fold, b));
    SomePieceSum(rgbs, c, Split(Folded(fold, a), ","), Split(Folded(fold, b), ","));
    ListsIs(fold, rgbs, c, a + "," + b);
    ListsIs(fold, rgbs, c, a);
    ListsIs(fold, rgbs, c, b);
  }

  lemma ListsFolded(fold: Folding, rgbs: map<string, string>, c: Color, value: string)
    requires ',' !in Folded(fold, value)
    ensures Lists(fold, rgbs, c, value) <==> Folded(fold, value) != "" && Code(rgbs, Folded(fold, value)) == ToRGB(c)
  {
    var s := Folded(fold, value);
    assert s[..|s|] == s;
    SplitAtFirst(s, ',', |s|);
    assert Split(s, ",") == [s];
    hide Split, Folded, Code, ToRGB;
    assert Split(s, ",")[0] == s;
  }

  /** A name of the table, in any letter case and with any spaces, stands for its code. */
  lemma EqOfEntry(fold: Folding, order: seq<Entry>, i: nat, c: Color, value: string)
    requires PaletteOk(fold, order) && i < |order| && Folded(fold, value) == Upper(fold, order[i].name)
    requires order[i].rgb != ""
    ensures Lists(fold, Rgbs(fold, order), c, value) <==> order[i].rgb == ToRGB(c)
  {
    RgbsAre(fold, order);
    LettersUp(fold, order[i].name);
    hide Rgbs, Folded, Upper, ToRGB, Letters;
    ListsFolded(fold, Rgbs(fold, order), c, value);
  }

  lemma NoNameNoCode(fold: Folding, order: seq<Entry>, s: string)
    requires PaletteOk(fold, order) && forall i :: 0 <= i < |order| ==> s != Upper(fold, order[i].name)
    ensures Code(Rgbs(fold, order), s) == s
  {
    hide Upper, Letters;
    RgbsAre(fold, order);
    hide Rgbs;
  }

  /** Any other single value stands for the colour whose code it is. */
  lemma EqOfOther(fold: Folding, order: seq<Entry>, c: Color, value: string)
    requires PaletteOk(fold, order) && ',' !in Folded(fold, value)
    requires forall i :: 0 <= i < |order| ==> Folded(fold, value) != Upper(fold, order[i].name)
    ensures Lists(fold, Rgbs(fold, order), c, value) <==> Folded(fold, value) == ToRGB(c)
  {
    hide *;
    NoNameNoCode(fold, order, Folded(fold, value));
    RGBShape(c);
    ListsFolded(fold, Rgbs(fold, order), c, value);
  }
}
