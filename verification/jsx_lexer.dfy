/**
 * JSX lexing over a source string and an index (src/jsx-parser.ts:
 * scanXHTMLEntity, lexJSX, nextJSXText).
 *
 * Identifier-start and identifier-part are parameters (the Unicode tables
 * live in the scanner, which is not part of this model), and so is the XHTML
 * entity table. Characters stand for the source's UTF-16 code units.
 */
module JsxLexer {
  import opened Wrappers

  predicate IsDecimalDigit(c: char) {
    '0' <= c <= '9'
  }

  predicate IsHexDigit(c: char) {
    IsDecimalDigit(c) || 'a' <= c <= 'f' || 'A' <= c <= 'F'
  }

  predicate AllDecimal(s: string) {
    forall k :: 0 <= k < |s| ==> IsDecimalDigit(s[k])
  }

  predicate AllHex(s: string) {
    forall k :: 0 <= k < |s| ==> IsHexDigit(s[k])
  }

  /** The value of a hex digit; the scanner reaches the digit readers only on digits. */
  function DigitValue(c: char): nat {
    if IsDecimalDigit(c) then c as nat - '0' as nat
    else if 'a' <= c <= 'f' then c as nat - 'a' as nat + 10
    else if 'A' <= c <= 'F' then c as nat - 'A' as nat + 10
    else 0
  }

  /** parseInt(s, 10) on a string of decimal digits. */
  function DecimalValue(s: string): nat {
    if |s| == 0 then 0 else 10 * DecimalValue(s[..|s| - 1]) + DigitValue(s[|s| - 1])
  }

  /** parseInt('0x' + s, 16) on a string of hex digits. */
  function HexValue(s: string): nat {
    if |s| == 0 then 0 else 16 * HexValue(s[..|s| - 1]) + DigitValue(s[|s| - 1])
  }

  // ---------------------------------------------------------------------------
  // XHTML entities.

  /** What an `&...` sequence in a JSX string decodes to. */
  datatype EntityText =
    | Raw(text: string)        // the `&` and the characters consumed, unchanged
    | CodeUnit(unit: nat)      // String.fromCharCode of a numeric entity
    | Named(value: string)     // an entry of the entity table

  datatype EntityFlags = EntityFlags(valid: bool, terminated: bool, numeric: bool, hex: bool)

  const StartFlags := EntityFlags(true, false, false, false)

  /**
   * One character of the entity loop; `length` is the length of the text
   * accumulated so far, `&` and this character included.
   */
  function EntityStep(f: EntityFlags, length: nat, ch: char): EntityFlags {
    var f1 := f.(terminated := ch == ';');
    if f1.terminated then f1
    else if length == 2 then f1.(numeric := ch == '#')
    else if length == 3 then
      if f1.numeric then
        var hex := ch == 'x';
        f1.(hex := hex, valid := hex || IsDecimalDigit(ch), numeric := f1.numeric && !hex)
      else f1
    else
      f1.(valid := f1.valid && !(f1.numeric && !IsDecimalDigit(ch)) && !(f1.hex && !IsHexDigit(ch)))
  }

  /** The entity loop from index j: stops at the end, at the quote (not consumed), after `;`, or once invalid. */
  function EntityLoop(src: string, quote: char, start: nat, j: nat, f: EntityFlags): (r: (nat, EntityFlags))
    requires start <= j <= |src|
    ensures j <= r.0 <= |src|
    decreases |src| - j
  {
    if j == |src| || !f.valid || f.terminated || src[j] == quote then (j, f)
    else EntityLoop(src, quote, start, j + 1, EntityStep(f, j - start + 2, src[j]))
  }

  datatype EntityScan = EntityScan(text: EntityText, next: nat)

  /**
   * scanXHTMLEntity, entered just after the `&`. A `;`-terminated, valid
   * sequence longer than `&;` decodes as a decimal code (`&#123;`), a hex code
   * (`&#x41;`) or a table entry (`&amp;`); anything else is returned raw.
   */
  function ScanXHTMLEntity(src: string, index: nat, quote: char, table: map<string, string>): (r: EntityScan)
    requires index <= |src|
    ensures index <= r.next <= |src|
  {
    var (end, f) := EntityLoop(src, quote, index, index, StartFlags);
    EntityScan(EntityValue(src[index..end], f, table), end)
  }

  /** The decoding step of scanXHTMLEntity, for the characters consumed after the `&` and the final flags. */
  function EntityValue(consumed: string, f: EntityFlags, table: map<string, string>): EntityText {
    var result := "&" + consumed;
    if f.valid && f.terminated && |result| > 2 then
      var str := consumed[..|consumed| - 1];
      if f.numeric && |str| > 1 then CodeUnit(DecimalValue(str[1..]) % 0x1_0000)
      else if f.hex && |str| > 2 then CodeUnit(HexValue(str[2..]) % 0x1_0000)
      else if !f.numeric && !f.hex && str in table && table[str] != "" then Named(table[str])
      else Raw(result)
    else Raw(result)
  }

  /** Reference: what the consumed characters t (after the `&`) decode to. */
  function Classify(t: string, table: map<string, string>): EntityText {
    if |t| >= 3 && t[0] == '#' && t[|t| - 1] == ';' && AllDecimal(t[1..|t| - 1]) then
      CodeUnit(DecimalValue(t[1..|t| - 1]) % 0x1_0000)
    else if |t| >= 4 && t[0] == '#' && t[1] == 'x' && t[|t| - 1] == ';' && AllHex(t[2..|t| - 1]) then
      CodeUnit(HexValue(t[2..|t| - 1]) % 0x1_0000)
    else if |t| >= 2 && t[0] != '#' && t[|t| - 1] == ';' && t[..|t| - 1] in table && table[t[..|t| - 1]] != "" then
      Named(table[t[..|t| - 1]])
    else Raw("&" + t)
  }

  /** Character k of a `#`-entity body is acceptable. */
  predicate CharOk(b: string, k: nat)
    requires 1 <= k < |b|
  {
    if b[0] != '#' then true
    else if k == 1 then b[1] == 'x' || IsDecimalDigit(b[1])
    else if b[1] == 'x' then IsHexDigit(b[k])
    else IsDecimalDigit(b[k])
  }

  predicate ValidBody(b: string) {
    |b| <= 1 || (ValidBody(b[..|b| - 1]) && CharOk(b, |b| - 1))
  }

  predicate Terminated(p: string) {
    |p| > 0 && p[|p| - 1] == ';'
  }

  function Body(p: string): string {
    if Terminated(p) then p[..|p| - 1] else p
  }

  /** The loop's flags after consuming p, read off p itself. */
  function FlagsFor(p: string): EntityFlags {
    var b := Body(p);
    EntityFlags(
      ValidBody(b),
      Terminated(p),
      |b| >= 1 && b[0] == '#' && !(|b| >= 2 && b[1] == 'x'),
      |b| >= 2 && b[0] == '#' && b[1] == 'x')
  }

  lemma FlagsForStep(p: string, ch: char)
    requires FlagsFor(p).valid && !FlagsFor(p).terminated
    ensures FlagsFor(p + [ch]) == EntityStep(FlagsFor(p), |p| + 2, ch)
  {
    assert Body(p) == p;
    var f := FlagsFor(p);
    assert f == EntityFlags(ValidBody(p), false, |p| >= 1 && p[0] == '#' && !(|p| >= 2 && p[1] == 'x'),
                            |p| >= 2 && p[0] == '#' && p[1] == 'x');
    if ch == ';' {
      StepSemicolon(p);
    } else {
      StepOther(p, ch);
    }
  }

  lemma StepSemicolon(p: string)
    requires !Terminated(p)
    ensures FlagsFor(p + [';']) == FlagsFor(p).(terminated := true)
  {
    var q := p + [';'];
    assert q[..|q| - 1] == p;
    assert Body(q) == p;
  }

  lemma StepOther(p: string, ch: char)
    requires ValidBody(p) && !Terminated(p) && ch != ';'
    ensures var f := EntityFlags(ValidBody(p), false, |p| >= 1 && p[0] == '#' && !(|p| >= 2 && p[1] == 'x'),
                                 |p| >= 2 && p[0] == '#' && p[1] == 'x');
            FlagsFor(p + [ch]) == EntityStep(f, |p| + 2, ch)
  {
    var q := p + [ch];
    assert q[..|q| - 1] == p;
    assert Body(q) == q;
    if |p| >= 1 {
      assert q[0] == p[0];
      assert ValidBody(q) == CharOk(q, |p|);
    }
    if |p| >= 2 {
      assert q[1] == p[1];
    }
  }

  /** The loop from j, started in the flags FlagsFor gives for what it has consumed, keeps them so. */
  lemma {:induction false} EntityLoopFlags(src: string, quote: char, start: nat, j: nat, f: EntityFlags)
    requires start <= j <= |src| && f == FlagsFor(src[start..j])
    ensures var r := EntityLoop(src, quote, start, j, f);
            r.1 == FlagsFor(src[start..r.0])
    decreases |src| - j
  {
    if !(j == |src| || !f.valid || f.terminated || src[j] == quote) {
      var g := EntityStep(f, j - start + 2, src[j]);
      FlagsStepAt(src, start, j, f);
      EntityLoopFlags(src, quote, start, j + 1, g);
    }
  }

  /** One step of the loop keeps the flags equal to those read off the consumed characters. */
  lemma FlagsStepAt(src: string, start: nat, j: nat, f: EntityFlags)
    requires start <= j < |src| && f == FlagsFor(src[start..j]) && f.valid && !f.terminated
    ensures EntityStep(f, j - start + 2, src[j]) == FlagsFor(src[start..j + 1])
  {
    var p := src[start..j];
    assert src[start..j + 1] == p + [src[j]];
    FlagsForStep(p, src[j]);
  }

  /**
   * Whatever the flags, the loop never consumes the quote and stops only at
   * the end, at the quote, on an invalid sequence or after a `;`; a
   * terminated sequence is a valid one.
   */
  lemma {:induction false} EntityLoopStops(src: string, quote: char, start: nat, j: nat, f: EntityFlags)
    requires start <= j <= |src| && (f.terminated ==> f.valid)
    ensures var r := EntityLoop(src, quote, start, j, f);
            && quote !in src[j..r.0]
            && (r.0 == |src| || src[r.0] == quote || !r.1.valid || r.1.terminated)
            && (r.1.terminated ==> r.1.valid)
            && (j < r.0 ==> ';' !in src[j..r.0 - 1])
    decreases |src| - j
  {
    if !(j == |src| || !f.valid || f.terminated || src[j] == quote) {
      var g := EntityStep(f, j - start + 2, src[j]);
      EntityLoopStops(src, quote, start, j + 1, g);
      var r := EntityLoop(src, quote, start, j, f);
      assert src[j..r.0] == [src[j]] + src[j + 1..r.0];
      if j + 1 < r.0 {
        assert !g.terminated;
        assert src[j..r.0 - 1] == [src[j]] + src[j + 1..r.0 - 1];
      }
    }
  }

  lemma {:induction false} ValidBodyMeans(b: string)
    requires |b| >= 2 && b[0] == '#'
    ensures ValidBody(b) <==> if b[1] == 'x' then AllHex(b[2..]) else AllDecimal(b[1..])
    decreases |b|
  {
    if |b| > 2 {
      var init := b[..|b| - 1];
      ValidBodyMeans(init);
      assert init[2..] == b[2..|b| - 1];
      assert init[1..] == b[1..|b| - 1];
      assert b[2..] == init[2..] + [b[|b| - 1]];
      assert b[1..] == init[1..] + [b[|b| - 1]];
    }
  }

  /**
   * The entity scanner decodes exactly what the reference classification of
   * the consumed characters says.
   */
  lemma ScanXHTMLEntityClassifies(src: string, index: nat, quote: char, table: map<string, string>)
    requires index <= |src|
    ensures var r := ScanXHTMLEntity(src, index, quote, table);
            r.text == Classify(src[index..r.next], table)
  {
    assert src[index..index] == [];
    assert FlagsFor([]) == StartFlags;
    EntityLoopFlags(src, quote, index, index, StartFlags);
    EntityLoopStops(src, quote, index, index, StartFlags);
    var r := ScanXHTMLEntity(src, index, quote, table);
    DecodingClassifies(src[index..r.next], table);
  }

  /** Decoding with the flags read off the consumed characters agrees with the reference. */
  lemma DecodingClassifies(t: string, table: map<string, string>)
    requires FlagsFor(t).terminated ==> FlagsFor(t).valid
    ensures EntityValue(t, FlagsFor(t), table) == Classify(t, table)
  {
    if Terminated(t) && |t| >= 2 {
      var b := t[..|t| - 1];
      assert Body(t) == b;
      assert t[0] == b[0];
      if b[0] != '#' {
        NamedClassifies(t, table);
      } else if |b| >= 2 && b[1] == 'x' {
        HexClassifies(t, table);
      } else {
        DecimalClassifies(t, table);
      }
    }
  }

  lemma DecimalClassifies(t: string, table: map<string, string>)
    requires Terminated(t) && |t| >= 2 && t[0] == '#' && !(|t| >= 3 && t[1] == 'x') && ValidBody(t[..|t| - 1])
    ensures EntityValue(t, FlagsFor(t), table) == Classify(t, table)
  {
    var b := t[..|t| - 1];
    assert Body(t) == b;
    assert FlagsFor(t).numeric && !FlagsFor(t).hex;
    assert t[1..|t| - 1] == b[1..];
    if |b| >= 2 {
      ValidBodyMeans(b);
    }
  }

  lemma HexClassifies(t: string, table: map<string, string>)
    requires Terminated(t) && |t| >= 3 && t[0] == '#' && t[1] == 'x' && ValidBody(t[..|t| - 1])
    ensures EntityValue(t, FlagsFor(t), table) == Classify(t, table)
  {
    var b := t[..|t| - 1];
    assert Body(t) == b;
    assert !FlagsFor(t).numeric && FlagsFor(t).hex;
    assert t[1..|t| - 1][0] == 'x';
    assert !AllDecimal(t[1..|t| - 1]);
    assert t[2..|t| - 1] == b[2..];
    ValidBodyMeans(b);
  }

  lemma NamedClassifies(t: string, table: map<string, string>)
    requires Terminated(t) && |t| >= 2 && t[0] != '#' && ValidBody(t[..|t| - 1])
    ensures EntityValue(t, FlagsFor(t), table) == Classify(t, table)
  {
    var b := t[..|t| - 1];
    assert Body(t) == b;
    assert b[0] == t[0];
    assert !FlagsFor(t).numeric && !FlagsFor(t).hex;
  }

  /**
   * The loop runs to just past the first `;` when no quote comes before it
   * and every shorter prefix leaves the flags valid.
   */
  lemma ConsumedThroughSemicolon(src: string, quote: char, index: nat, end: nat)
    requires index < end <= |src| && src[end - 1] == ';'
    requires forall m :: index <= m < end - 1 ==> src[m] != ';'
    requires forall m :: index <= m < end ==> src[m] != quote
    requires forall n :: index <= n < end ==> FlagsFor(src[index..n]).valid
    ensures EntityLoop(src, quote, index, index, StartFlags).0 == end
  {
    assert src[index..index] == [];
    assert FlagsFor([]) == StartFlags;
    EntityLoopFlags(src, quote, index, index, StartFlags);
    EntityLoopStops(src, quote, index, index, StartFlags);
    var e := EntityLoop(src, quote, index, index, StartFlags).0;
    InSlice(src, index, e - 1, end - 1);
    InSlice(src, index, e, e - 1);
  }

  lemma InSlice(s: string, a: int, b: int, k: int)
    ensures 0 <= a <= k < b <= |s| ==> s[k] in s[a..b] && s[a..b][k - a] == s[k]
  {
    if 0 <= a <= k < b <= |s| {
      assert s[a..b][k - a] == s[k];
    }
  }

  /**
   * An entity text t that sits at index, contains no quote, ends at its first
   * `;` and leaves the flags valid on every shorter prefix is consumed whole
   * and decodes as the reference says.
   */
  lemma EntityConsumedWhole(src: string, index: nat, quote: char, table: map<string, string>, t: string)
    requires |t| > 0 && index + |t| <= |src| && src[index..index + |t|] == t
    requires t[|t| - 1] == ';' && quote !in t && ';' !in t[..|t| - 1]
    requires forall n :: 0 <= n < |t| ==> FlagsFor(t[..n]).valid
    ensures ScanXHTMLEntity(src, index, quote, table) == EntityScan(Classify(t, table), index + |t|)
  {
    var end := index + |t|;
    forall m | index <= m < end
      ensures src[m] != quote && (m < end - 1 ==> src[m] != ';')
    {
      assert src[m] == t[m - index];
      if m < end - 1 {
        assert t[m - index] == t[..|t| - 1][m - index];
      }
    }
    forall n | index <= n < end
      ensures FlagsFor(src[index..n]).valid
    {
      assert src[index..n] == t[..n - index];
    }
    ConsumedThroughSemicolon(src, quote, index, end);
    ScanXHTMLEntityClassifies(src, index, quote, table);
  }

  /** A `;`-terminated decimal entity `&#NNN;` is consumed whole and decodes to its code. */
  lemma DecimalEntityDecodes(src: string, index: nat, quote: char, table: map<string, string>, digits: string)
    requires |digits| > 0 && AllDecimal(digits)
    requires quote != ';' && quote != '#' && !IsDecimalDigit(quote)
    requires index + |digits| + 2 <= |src| && src[index..index + |digits| + 2] == "#" + digits + ";"
    ensures ScanXHTMLEntity(src, index, quote, table)
         == EntityScan(CodeUnit(DecimalValue(digits) % 0x1_0000), index + |digits| + 2)
  {
    var t := "#" + digits + ";";
    DecimalShape(digits, quote);
    EntityConsumedWhole(src, index, quote, table, t);
    assert t[1..|t| - 1] == digits;
  }

  /** `#NNN;` holds no quote, has its only `;` at the end, and every proper prefix is valid. */
  lemma DecimalShape(digits: string, quote: char)
    requires AllDecimal(digits) && quote != ';' && quote != '#' && !IsDecimalDigit(quote)
    ensures var t := "#" + digits + ";";
            quote !in t && ';' !in t[..|t| - 1] && forall n :: 0 <= n < |t| ==> FlagsFor(t[..n]).valid
  {
    var t := "#" + digits + ";";
    assert t[..|t| - 1] == "#" + digits;
    NotInDigits(digits, quote, false);
    NotInDigits(digits, ';', false);
    forall n | 0 <= n < |t|
      ensures FlagsFor(t[..n]).valid
    {
      DecimalPrefixValid(digits, n);
    }
  }

  /** A character that is not a digit does not occur in a run of digits. */
  lemma NotInDigits(digits: string, c: char, hex: bool)
    requires if hex then AllHex(digits) && !IsHexDigit(c) else AllDecimal(digits) && !IsDecimalDigit(c)
    ensures c !in digits
  {
    forall k | 0 <= k < |digits|
      ensures digits[k] != c
    {
    }
  }

  /** Every proper prefix of `#NNN;` leaves the flags valid. */
  lemma DecimalPrefixValid(digits: string, n: nat)
    requires AllDecimal(digits) && n <= |digits| + 1
    ensures FlagsFor(("#" + digits + ";")[..n]).valid
  {
    if n >= 2 {
      var d := digits[..n - 1];
      var b := "#" + d;
      assert ("#" + digits + ";")[..n] == b;
      assert b[n - 1] == digits[n - 2];
      assert Body(b) == b;
      assert b[1..] == d;
      ValidBodyMeans(b);
    }
  }

  /** A `;`-terminated hex entity `&#xHH;` is consumed whole and decodes to its code. */
  lemma HexEntityDecodes(src: string, index: nat, quote: char, table: map<string, string>, digits: string)
    requires |digits| > 0 && AllHex(digits)
    requires quote != ';' && quote != '#' && quote != 'x' && !IsHexDigit(quote)
    requires index + |digits| + 3 <= |src| && src[index..index + |digits| + 3] == "#x" + digits + ";"
    ensures ScanXHTMLEntity(src, index, quote, table)
         == EntityScan(CodeUnit(HexValue(digits) % 0x1_0000), index + |digits| + 3)
  {
    HexShape(digits, quote);
    EntityConsumedWhole(src, index, quote, table, "#x" + digits + ";");
    HexText(digits, table);
  }

  /** `#xHH;` holds no quote, has its only `;` at the end, and every proper prefix is valid. */
  lemma HexShape(digits: string, quote: char)
    requires AllHex(digits) && quote != ';' && quote != '#' && quote != 'x' && !IsHexDigit(quote)
    ensures var t := "#x" + digits + ";";
            quote !in t && ';' !in t[..|t| - 1] && forall n :: 0 <= n < |t| ==> FlagsFor(t[..n]).valid
  {
    var t := "#x" + digits + ";";
    assert t[..|t| - 1] == "#x" + digits;
    NotInDigits(digits, quote, true);
    NotInDigits(digits, ';', true);
    forall n | 0 <= n < |t|
      ensures FlagsFor(t[..n]).valid
    {
      HexPrefixValid(digits, n);
    }
  }

  lemma HexText(digits: string, table: map<string, string>)
    requires |digits| > 0 && AllHex(digits)
    ensures Classify("#x" + digits + ";", table) == CodeUnit(HexValue(digits) % 0x1_0000)
  {
    var t := "#x" + digits + ";";
    assert t[2..|t| - 1] == digits;
    assert t[1..|t| - 1][0] == 'x';
  }

  /** Every proper prefix of `#xHH;` leaves the flags valid. */
  lemma HexPrefixValid(digits: string, n: nat)
    requires AllHex(digits) && n <= |digits| + 2
    ensures FlagsFor(("#x" + digits + ";")[..n]).valid
  {
    if n >= 2 {
      var d := digits[..n - 2];
      var b := "#x" + d;
      assert ("#x" + digits + ";")[..n] == b;
      assert b[1] == 'x';
      assert n >= 3 ==> b[n - 1] == digits[n - 3];
      assert Body(b) == b;
      assert b[2..] == d;
      ValidBodyMeans(b);
    }
  }

  /** A body not starting with `#` is never invalid. */
  lemma {:induction false} NamedBodyValid(b: string)
    requires |b| > 0 && b[0] != '#'
    ensures ValidBody(b)
    decreases |b|
  {
    if |b| > 1 {
      assert b[..|b| - 1][0] == b[0];
      NamedBodyValid(b[..|b| - 1]);
    }
  }

  /**
   * A named entity `&name;` whose name is in the table is consumed whole and
   * decodes to the table's value.
   */
  lemma NamedEntityDecodes(src: string, index: nat, quote: char, table: map<string, string>, name: string)
    requires |name| > 0 && name[0] != '#' && ';' !in name && quote !in name && quote != ';'
    requires name in table && table[name] != ""
    requires index + |name| + 1 <= |src| && src[index..index + |name| + 1] == name + ";"
    ensures ScanXHTMLEntity(src, index, quote, table) == EntityScan(Named(table[name]), index + |name| + 1)
  {
    var t := name + ";";
    assert t[..|t| - 1] == name;
    forall n | 0 <= n < |t|
      ensures FlagsFor(t[..n]).valid
    {
      var p := t[..n];
      if n > 0 {
        assert p == name[..n];
        assert p[|p| - 1] in name;
        assert !Terminated(p);
        NamedBodyValid(p);
      }
    }
    EntityConsumedWhole(src, index, quote, table, t);
  }

  // ---------------------------------------------------------------------------
  // lexJSX.

  datatype Piece = Plain(c: char) | Entity(entity: EntityText)

  datatype JsxToken =
    | Punctuator(value: string, start: nat, end: nat)
    | StringLiteral(pieces: seq<Piece>, start: nat, end: nat)
    | TemplatePlaceholder(at: nat)
    | Identifier(value: string, start: nat, end: nat)
    | Delegated                  // handed to the ordinary scanner

  predicate IsJsxPunctuator(c: char) {
    c == '<' || c == '>' || c == '/' || c == ':' || c == '=' || c == '{' || c == '}'
  }

  /** The body of a quoted attribute string from j: characters and entities up to the closing quote. */
  function ScanString(src: string, quote: char, j: nat, table: map<string, string>): (r: (seq<Piece>, nat))
    requires j <= |src|
    ensures j <= r.1 <= |src|
    ensures j < |src| ==> j < r.1
    ensures r.1 == |src| || (j < r.1 && src[r.1 - 1] == quote)
    ensures |r.0| <= r.1 - j
    decreases |src| - j
  {
    if j == |src| then ([], j)
    else if src[j] == quote then ([], j + 1)
    else if src[j] == '&' then
      var e := ScanXHTMLEntity(src, j + 1, quote, table);
      var rest := ScanString(src, quote, e.next, table);
      ([Entity(e.text)] + rest.0, rest.1)
    else
      var rest := ScanString(src, quote, j + 1, table);
      ([Plain(src[j])] + rest.0, rest.1)
  }

  /** The end of a JSX identifier whose characters from j on are identifier parts (never `\`) or `-`. */
  function IdentifierEnd(src: string, j: nat, isIdentifierPart: char -> bool): (e: nat)
    requires j <= |src|
    ensures j <= e <= |src|
    ensures forall m :: j <= m < e ==> (isIdentifierPart(src[m]) && src[m] != '\\') || src[m] == '-'
    ensures e == |src| || !((isIdentifierPart(src[e]) && src[e] != '\\') || src[e] == '-')
    decreases |src| - j
  {
    if j < |src| && ((isIdentifierPart(src[j]) && src[j] != '\\') || src[j] == '-') then
      IdentifierEnd(src, j + 1, isIdentifierPart)
    else j
  }

  /**
   * lexJSX at index i. Every token it builds starts at i; punctuators and
   * identifiers are their own source text, and a string ends at the end of
   * input or just after its closing quote.
   */
  function LexJSX(src: string, i: nat, isIdentifierStart: char -> bool, isIdentifierPart: char -> bool,
                  table: map<string, string>): (r: JsxToken)
    requires i <= |src|
    ensures r.Delegated? <==>
              i == |src| || !(IsJsxPunctuator(src[i]) || src[i] == '"' || src[i] == '\'' || src[i] == '.'
                              || src[i] == '`' || (isIdentifierStart(src[i]) && src[i] != '\\'))
    ensures r.Punctuator? ==> r.start == i && i < r.end <= |src| && r.value == src[i..r.end]
    ensures r.StringLiteral? ==>
              && r.start == i && i < r.end <= |src| && (src[i] == '"' || src[i] == '\'')
              && (r.end == |src| || (i + 1 < r.end && src[r.end - 1] == src[i]))
    ensures r.TemplatePlaceholder? ==> r.at == i && src[i] == '`'
    ensures r.Identifier? ==>
              && r.start == i && i < r.end <= |src| && r.value == src[i..r.end]
              && (r.end == |src| || !((isIdentifierPart(src[r.end]) && src[r.end] != '\\') || src[r.end] == '-'))
  {
    if i == |src| then Delegated
    else
      var c := src[i];
      if IsJsxPunctuator(c) then Punctuator([c], i, i + 1)
      else if c == '"' || c == '\'' then
        var s := ScanString(src, c, i + 1, table);
        StringLiteral(s.0, i, s.1)
      else if c == '.' then
        if i + 2 < |src| && src[i + 1] == '.' && src[i + 2] == '.' then Punctuator("...", i, i + 3)
        else Punctuator(".", i, i + 1)
      else if c == '`' then TemplatePlaceholder(i)
      else if isIdentifierStart(c) && c != '\\' then
        var e := IdentifierEnd(src, i + 1, isIdentifierPart);
        Identifier(src[i..e], i, e)
      else Delegated
  }

  /** Each JSX punctuator character lexes as itself, one character long. */
  lemma PunctuatorIsOneCharacter(src: string, i: nat, isIdentifierStart: char -> bool, isIdentifierPart: char -> bool,
                                 table: map<string, string>)
    requires i < |src| && IsJsxPunctuator(src[i])
    ensures LexJSX(src, i, isIdentifierStart, isIdentifierPart, table) == Punctuator([src[i]], i, i + 1)
  {
  }

  /** A dot lexes as `...` exactly when two more dots follow; the token spans its own length. */
  lemma DotsLex(src: string, i: nat, isIdentifierStart: char -> bool, isIdentifierPart: char -> bool,
                table: map<string, string>)
    requires i < |src| && src[i] == '.'
    ensures var t := LexJSX(src, i, isIdentifierStart, isIdentifierPart, table);
            && t.Punctuator? && t.start == i && t.end == i + |t.value|
            && (t.value == "..." <==> i + 2 < |src| && src[i + 1] == '.' && src[i + 2] == '.')
            && (t.value == "..." || t.value == ".")
            && src[i..t.end] == t.value
  {
    var t := LexJSX(src, i, isIdentifierStart, isIdentifierPart, table);
    if t.value == "..." {
      assert src[i..i + 3] == [src[i], src[i + 1], src[i + 2]];
    } else {
      assert src[i..i + 1] == [src[i]];
    }
  }

  /**
   * A JSX identifier starts with an identifier-start character other than
   * `\`, continues over identifier parts and `-`, never holds a `\`, and
   * extends as far as it can.
   */
  lemma IdentifierLex(src: string, i: nat, isIdentifierStart: char -> bool, isIdentifierPart: char -> bool,
                      table: map<string, string>)
    requires i <= |src|
    ensures var t := LexJSX(src, i, isIdentifierStart, isIdentifierPart, table);
            t.Identifier? ==>
              && t.start == i && i < t.end <= |src| && t.value == src[i..t.end]
              && isIdentifierStart(t.value[0]) && '\\' !in t.value
              && (forall m :: 1 <= m < |t.value| ==> isIdentifierPart(t.value[m]) || t.value[m] == '-')
              && (t.end == |src| || !((isIdentifierPart(src[t.end]) && src[t.end] != '\\') || src[t.end] == '-'))
  {
    var t := LexJSX(src, i, isIdentifierStart, isIdentifierPart, table);
    if t.Identifier? {
      forall m | 0 <= m < |t.value|
        ensures t.value[m] != '\\'
      {
        assert t.value[m] == src[i + m];
      }
      forall m | 1 <= m < |t.value|
        ensures isIdentifierPart(t.value[m]) || t.value[m] == '-'
      {
        assert t.value[m] == src[i + m];
      }
    }
  }

  /** The pieces of a quoted string with no `&`: its characters up to the closing quote, or to the end. */
  lemma {:induction false} PlainStringScan(src: string, quote: char, j: nat, table: map<string, string>)
    requires j <= |src|
    ensures var r := ScanString(src, quote, j, table);
            NoAmpersandBefore(src, quote, j) ==>
              && (r.1 == |src| || (r.1 > j && src[r.1 - 1] == quote))
              && r.0 == Plains(src[j..StringContentEnd(src, quote, j)])
    decreases |src| - j
  {
    if j < |src| && src[j] != quote && src[j] != '&' {
      PlainStringScan(src, quote, j + 1, table);
      var e := StringContentEnd(src, quote, j);
      assert src[j..e] == [src[j]] + src[j + 1..e];
    } else if j < |src| && src[j] == quote {
      assert src[j..j] == [];
    } else if j == |src| {
      assert src[j..j] == [];
    }
  }

  function Plains(s: string): (r: seq<Piece>)
    ensures |r| == |s| && forall k :: 0 <= k < |s| ==> r[k] == Plain(s[k])
  {
    if |s| == 0 then [] else [Plain(s[0])] + Plains(s[1..])
  }

  /** The index of the closing quote at or after j, or the end of the source. */
  function StringContentEnd(src: string, quote: char, j: nat): (e: nat)
    requires j <= |src|
    ensures j <= e <= |src| && (e == |src| || src[e] == quote)
    ensures forall m :: j <= m < e ==> src[m] != quote
    decreases |src| - j
  {
    if j == |src| || src[j] == quote then j else StringContentEnd(src, quote, j + 1)
  }

  predicate NoAmpersandBefore(src: string, quote: char, j: nat)
    requires j <= |src|
  {
    forall m :: j <= m < StringContentEnd(src, quote, j) ==> src[m] != '&'
  }

  // ---------------------------------------------------------------------------
  // nextJSXText.

  predicate IsLineTerminator(c: char) {
    c == '\n' || c == '\r' || c == '\U{2028}' || c == '\U{2029}'
  }

  datatype TextScan = TextScan(text: string, next: nat, lineNumber: int, lineStart: nat)

  /**
   * The text loop from j: stops before `{` or `<` or at the end. A line
   * terminator bumps the line number and moves the line start past it; a
   * `\n` right after a `\r` is skipped and not added to the text.
   */
  function ScanText(src: string, j: nat, text: string, lineNumber: int, lineStart: nat): (r: TextScan)
    requires j <= |src|
    ensures j <= r.next <= |src|
    decreases |src| - j
  {
    if j == |src| || src[j] == '{' || src[j] == '<' then TextScan(text, j, lineNumber, lineStart)
    else
      var after := After(src, j);
      var terminator := IsLineTerminator(src[j]);
      ScanText(src, after, text + [src[j]], if terminator then lineNumber + 1 else lineNumber,
               if terminator then after else lineStart)
  }

  /** The index after the character at j, skipping the `\n` of a `\r\n` pair. */
  function After(src: string, j: nat): (a: nat)
    requires j < |src|
    ensures j < a <= |src|
  {
    if src[j] == '\r' && j + 1 < |src| && src[j + 1] == '\n' then j + 2 else j + 1
  }

  /**
   * nextJSXText at index i: the text runs to the first `{` or `<` or to the
   * end, its value is that run with `\r\n` collapsed, and the line number
   * rises once per line terminator of the value.
   */
  function NextJSXText(src: string, i: nat, lineNumber: int, lineStart: nat): (r: TextScan)
    requires i <= |src|
    ensures i <= r.next <= |src|
    ensures r.next == |src| || src[r.next] == '{' || src[r.next] == '<'
    ensures forall m :: i <= m < r.next ==> src[m] != '{' && src[m] != '<'
    ensures r.text == CollapseCRLF(src[i..r.next])
    ensures r.lineNumber == lineNumber + CountTerminators(r.text)
  {
    ScanTextStops(src, i, "", lineNumber, lineStart);
    ScanTextValue(src, i, "", lineNumber, lineStart);
    ScanTextLines(src, i, "", lineNumber, lineStart);
    var r := ScanText(src, i, "", lineNumber, lineStart);
    assert "" + CollapseCRLF(src[i..r.next]) == CollapseCRLF(src[i..r.next]);
    r
  }

  /** Reference: the characters with every `\r\n` pair reduced to its `\r`. */
  function CollapseCRLF(s: string): string {
    if |s| == 0 then ""
    else if |s| >= 2 && s[0] == '\r' && s[1] == '\n' then "\r" + CollapseCRLF(s[2..])
    else [s[0]] + CollapseCRLF(s[1..])
  }

  function CountTerminators(s: string): nat {
    if |s| == 0 then 0 else CountTerminators(s[..|s| - 1]) + (if IsLineTerminator(s[|s| - 1]) then 1 else 0)
  }

  lemma CountAppend(a: string, b: string)
    ensures CountTerminators(a + b) == CountTerminators(a) + CountTerminators(b)
  {
    if |b| > 0 {
      assert (a + b)[..|a + b| - 1] == a + b[..|b| - 1];
      CountAppend(a, b[..|b| - 1]);
    } else {
      assert a + b == a;
    }
  }

  /** JSX text runs up to, not including, the first `{` or `<`, or to the end. */
  lemma {:induction false} ScanTextStops(src: string, j: nat, text: string, lineNumber: int, lineStart: nat)
    requires j <= |src|
    ensures var r := ScanText(src, j, text, lineNumber, lineStart);
            && (r.next == |src| || src[r.next] == '{' || src[r.next] == '<')
            && (forall m :: j <= m < r.next ==> src[m] != '{' && src[m] != '<')
    decreases |src| - j
  {
    if !(j == |src| || src[j] == '{' || src[j] == '<') {
      var after := After(src, j);
      var terminator := IsLineTerminator(src[j]);
      ScanTextStops(src, after, text + [src[j]], if terminator then lineNumber + 1 else lineNumber,
                    if terminator then after else lineStart);
    }
  }

  /** The text value is the source slice with each `\r\n` collapsed to `\r`. */
  lemma {:induction false} ScanTextValue(src: string, j: nat, text: string, lineNumber: int, lineStart: nat)
    requires j <= |src|
    ensures var r := ScanText(src, j, text, lineNumber, lineStart);
            r.text == text + CollapseCRLF(src[j..r.next])
    decreases |src| - j
  {
    if j == |src| || src[j] == '{' || src[j] == '<' {
      assert src[j..j] == [];
    } else {
      var after := After(src, j);
      var terminator := IsLineTerminator(src[j]);
      var line := if terminator then lineNumber + 1 else lineNumber;
      var start := if terminator then after else lineStart;
      ScanTextValue(src, after, text + [src[j]], line, start);
      ScanTextValueStep(src, j, text, lineNumber, lineStart);
    }
  }

  lemma ScanTextValueStep(src: string, j: nat, text: string, lineNumber: int, lineStart: nat)
    requires j < |src| && src[j] != '{' && src[j] != '<'
    requires var after := After(src, j);
             var terminator := IsLineTerminator(src[j]);
             var r := ScanText(src, after, text + [src[j]], if terminator then lineNumber + 1 else lineNumber,
                               if terminator then after else lineStart);
             r.text == (text + [src[j]]) + CollapseCRLF(src[after..r.next])
    ensures var r := ScanText(src, j, text, lineNumber, lineStart);
            r.text == text + CollapseCRLF(src[j..r.next])
  {
    var after := After(src, j);
    var r := ScanText(src, j, text, lineNumber, lineStart);
    CollapseStep(src, j, r.next);
    assert (text + [src[j]]) + CollapseCRLF(src[after..r.next]) == text + ([src[j]] + CollapseCRLF(src[after..r.next]));
  }

  /** The line number rises once per line terminator of the text value, so a `\r\n` counts once. */
  lemma {:induction false} ScanTextLines(src: string, j: nat, text: string, lineNumber: int, lineStart: nat)
    requires j <= |src|
    ensures var r := ScanText(src, j, text, lineNumber, lineStart);
            r.lineNumber == lineNumber + CountTerminators(CollapseCRLF(src[j..r.next]))
    decreases |src| - j
  {
    if j == |src| || src[j] == '{' || src[j] == '<' {
      assert src[j..j] == [];
    } else {
      var after := After(src, j);
      var terminator := IsLineTerminator(src[j]);
      var line := if terminator then lineNumber + 1 else lineNumber;
      var start := if terminator then after else lineStart;
      var r := ScanText(src, after, text + [src[j]], line, start);
      ScanTextLines(src, after, text + [src[j]], line, start);
      CollapseStep(src, j, r.next);
      CountAppend([src[j]], CollapseCRLF(src[after..r.next]));
      CountOne(src[j]);
    }
  }

  /** Collapsing a slice that starts at j, one step: the character at j, then the rest after it. */
  lemma CollapseStep(src: string, j: nat, e: nat)
    requires j < |src| && After(src, j) <= e <= |src|
    ensures CollapseCRLF(src[j..e]) == [src[j]] + CollapseCRLF(src[After(src, j)..e])
  {
    var s := src[j..e];
    assert s[1..] == src[j + 1..e];
    if |s| >= 2 {
      assert s[2..] == src[j + 2..e];
    }
  }

  lemma CountOne(ch: char)
    ensures CountTerminators([ch]) == if IsLineTerminator(ch) then 1 else 0
  {
    assert [ch][..0] == [];
  }
}
