/** The names the schema builder derives from what the user types: the
    stored name of a table or field (`generateDbName`, NewModule.tsx and
    the edit page), the value of a select option, and a module's URL slug. */
module Naming {
  import opened Text

  /** A combining diacritical mark, U+0300 to U+036F: the range the builder
      deletes after canonical decomposition. */
  predicate IsCombiningMark(c: char) {
    '\U{0300}' <= c <= '\U{036F}'
  }

  /** What canonical decomposition followed by the deletion of combining
      marks leaves of a lower-case Latin-1 letter: the accented vowels, `ç`,
      `ñ`, `ý` and `ÿ` lose their accent; every other character (`æ`, `ø`,
      `ß`, `ð`, `þ` included) has no decomposition and stays. */
  function BaseLetter(c: char): (r: char)
    ensures !IsCombiningMark(c) ==> !IsCombiningMark(r)
    ensures c < '\U{0080}' ==> r == c
  {
    if '\U{00E0}' <= c <= '\U{00E5}' then 'a'
    else if c == '\U{00E7}' then 'c'
    else if '\U{00E8}' <= c <= '\U{00EB}' then 'e'
    else if '\U{00EC}' <= c <= '\U{00EF}' then 'i'
    else if c == '\U{00F1}' then 'n'
    else if '\U{00F2}' <= c <= '\U{00F6}' then 'o'
    else if '\U{00F9}' <= c <= '\U{00FC}' then 'u'
    else if c == '\U{00FD}' || c == '\U{00FF}' then 'y'
    else c
  }

  /** The characters `[a-z0-9]` matches: lower-case ASCII letters and
      digits only. */
  predicate IsLowerAlnum(c: char) {
    ('a' <= c <= 'z') || ('0' <= c <= '9')
  }

  /** Canonical decomposition followed by deleting the combining marks,
      on lower-case text: each character replaced by its base letter, and the combining
      marks already present deleted. */
  function StripAccents(s: string): (r: string)
    ensures |r| <= |s|
    ensures forall i :: 0 <= i < |r| ==> !IsCombiningMark(r[i])
    ensures (forall i :: 0 <= i < |s| ==> !IsCombiningMark(s[i])) ==>
              |r| == |s| && forall i :: 0 <= i < |s| ==> r[i] == BaseLetter(s[i])
  {
    if s == [] then []
    else if IsCombiningMark(s[0]) then StripAccents(s[1..])
    else [BaseLetter(s[0])] + StripAccents(s[1..])
  }

  /** `.replace(/[^a-z0-9]/g, fill)`: every character outside `[a-z0-9]`
      becomes one `fill`, so runs are not merged and nothing is trimmed. */
  function ReplaceNonAlnum(s: string, fill: char): (r: string)
    ensures |r| == |s|
    ensures forall i :: 0 <= i < |s| ==> r[i] == if IsLowerAlnum(s[i]) then s[i] else fill
  {
    seq(|s|, i requires 0 <= i < |s| => if IsLowerAlnum(s[i]) then s[i] else fill)
  }

  /** A character of a stored table or field name. */
  predicate IsNameChar(c: char) {
    IsLowerAlnum(c) || c == '_'
  }

  predicate IsStoredName(s: string) {
    forall i :: 0 <= i < |s| ==> IsNameChar(s[i])
  }

  /** `generateDbName(caption)`: lower-case, strip accents, and turn each
      remaining character outside `[a-z0-9]` into `_`. The result is a valid
      stored name; without combining marks in the caption it has exactly the
      caption's length, one output character per input character. */
  function GenerateDbName(caption: string): (r: string)
    ensures IsStoredName(r)
    ensures |r| <= |caption|
    ensures (forall i :: 0 <= i < |caption| ==> !IsCombiningMark(caption[i])) ==> |r| == |caption|
  {
    var lower := ToLower(caption);
    assert forall i :: 0 <= i < |caption| ==> !IsCombiningMark(caption[i]) ==> !IsCombiningMark(lower[i]);
    ReplaceNonAlnum(StripAccents(lower), '_')
  }

  /** Every character of the name maps to itself, so a stored name is its
      own stored name. */
  lemma {:induction false} StoredNameUnchanged(s: string)
    requires IsStoredName(s)
    ensures GenerateDbName(s) == s
  {
    var lower := ToLower(s);
    assert lower == s;
    var stripped := StripAccents(s);
    assert forall i :: 0 <= i < |s| ==> stripped[i] == s[i];
    assert stripped == s;
  }

  /** `generateDbName` is idempotent. */
  lemma GenerateDbNameIdempotent(caption: string)
    ensures GenerateDbName(GenerateDbName(caption)) == GenerateDbName(caption)
  {
    StoredNameUnchanged(GenerateDbName(caption));
  }

  /** Labels differing only in letter case get the same stored name. */
  lemma GenerateDbNameIgnoresCase(caption: string)
    ensures GenerateDbName(ToLower(caption)) == GenerateDbName(caption)
  {
    ToLowerIdempotent(caption);
  }

  /** Accents go, and each space becomes its own `_`. */
  lemma GenerateDbNameExample()
    ensures GenerateDbName("Pé  X") == "pe__x"
  {
    LowerOfPeX();
    StripOfPeX();
    UnderscoresOfPeX();
  }

  lemma LowerOfPeX()
    ensures ToLower("Pé  X") == "pé  x"
  {
    var lower := ToLower("Pé  X");
    assert lower[0] == 'p' && lower[1] == 'é' && lower[2] == ' ' && lower[3] == ' ' && lower[4] == 'x';
  }

  lemma StripOfPeX()
    ensures StripAccents("pé  x") == "pe  x"
  {
    assert StripAccents("x") == "x";
    assert StripAccents(" x") == " x";
    assert StripAccents("  x") == "  x";
    assert StripAccents("é  x") == "e  x";
  }

  lemma UnderscoresOfPeX()
    ensures ReplaceNonAlnum("pe  x", '_') == "pe__x"
  {
    var r := ReplaceNonAlnum("pe  x", '_');
    assert r[0] == 'p' && r[1] == 'e' && r[2] == '_' && r[3] == '_' && r[4] == 'x';
  }

  // ---------------------------------------------------------------------
  // Select options

  /** The value of an option typed by the user or extracted from a CSV
      column: `caption.toLowerCase().replace(/[^a-z0-9]/g, '_')`. Unlike a
      stored name there is no accent stripping, so each accented letter
      becomes `_`; the value has the caption's length. */
  function OptionValue(caption: string): (r: string)
    ensures |r| == |caption| && IsStoredName(r)
  {
    ReplaceNonAlnum(ToLower(caption), '_')
  }

  /** The two rules part ways on accented letters. */
  lemma OptionValueKeepsNoAccent()
    ensures OptionValue("Ão") == "_o"
    ensures GenerateDbName("Ão") == "ao"
  {
    var lower := ToLower("Ão");
    assert lower == "ão" by {
      assert lower[0] == 'ã' && lower[1] == 'o';
    }
    var v := OptionValue("Ão");
    assert v[0] == '_' && v[1] == 'o';
    assert StripAccents("o") == "o";
    assert StripAccents("ão") == "ao";
    var r := ReplaceNonAlnum("ao", '_');
    assert r[0] == 'a' && r[1] == 'o';
  }

  // ---------------------------------------------------------------------
  // Module slug

  /** `.replace(/-+/g, '-')`: each run of dashes becomes one dash. */
  function CollapseDashes(s: string): (r: string)
    ensures |r| <= |s|
    ensures forall i :: 0 <= i < |r| - 1 ==> !(r[i] == '-' && r[i + 1] == '-')
    ensures s != [] ==> r != [] && r[0] == s[0]
  {
    if |s| < 2 then s
    else if s[0] == '-' && s[1] == '-' then CollapseDashes(s[1..])
    else [s[0]] + CollapseDashes(s[1..])
  }

  /** The string with every dash deleted. */
  function WithoutDashes(s: string): string {
    if s == [] then [] else (if s[0] == '-' then [] else [s[0]]) + WithoutDashes(s[1..])
  }

  /** Collapsing deletes dashes and nothing else. */
  lemma {:induction false} CollapseDeletesOnlyDashes(s: string)
    ensures WithoutDashes(CollapseDashes(s)) == WithoutDashes(s)
    decreases |s|
  {
    if |s| >= 2 {
      CollapseDeletesOnlyDashes(s[1..]);
    }
  }

  /** A run of dashes keeps one dash: two dashes in a row collapse to one,
      wherever they stand. */
  lemma {:induction false} CollapseDoubleDash(x: string, y: string)
    ensures CollapseDashes(x + "--" + y) == CollapseDashes(x + "-" + y)
    decreases |x|
  {
    if x == [] {
      assert x + "--" + y == ['-'] + ("-" + y);
      assert ("-" + "-" + y)[1..] == "-" + y;
    } else {
      var s, t := x + "--" + y, x + "-" + y;
      assert s[0] == t[0] == x[0];
      assert s[1] == t[1];
      assert s[1..] == x[1..] + "--" + y;
      assert t[1..] == x[1..] + "-" + y;
      CollapseDoubleDash(x[1..], y);
    }
  }

  /** A string without two dashes in a row is left as it is, so collapsing
      twice is collapsing once. */
  lemma {:induction false} CollapseIdempotent(s: string)
    requires forall i :: 0 <= i < |s| - 1 ==> !(s[i] == '-' && s[i + 1] == '-')
    ensures CollapseDashes(s) == s
    decreases |s|
  {
    if |s| >= 2 {
      CollapseIdempotent(s[1..]);
      assert [s[0]] + s[1..] == s;
    }
  }

  /** The name part of the slug: lower-case, accents stripped, each
      character outside `[a-z0-9]` a dash, runs of dashes merged. */
  function SlugStem(name: string): (r: string)
    ensures forall i :: 0 <= i < |r| ==> IsLowerAlnum(r[i]) || r[i] == '-'
    ensures forall i :: 0 <= i < |r| - 1 ==> !(r[i] == '-' && r[i + 1] == '-')
  {
    CollapseDashesKeepsChars(ReplaceNonAlnum(StripAccents(ToLower(name)), '-'));
    CollapseDashes(ReplaceNonAlnum(StripAccents(ToLower(name)), '-'))
  }

  lemma {:induction false} CollapseDashesKeepsChars(s: string)
    ensures forall i :: 0 <= i < |CollapseDashes(s)| ==> CollapseDashes(s)[i] in s
    decreases |s|
  {
    if |s| >= 2 {
      CollapseDashesKeepsChars(s[1..]);
    }
  }

  /** The slug of a new module, given the random suffix the builder draws in
      [1000, 9999]: the stem, a dash, and the suffix's four digits. The stem
      is not trimmed, so a name ending in punctuation leaves a dash before
      the separator dash. */
  function ModuleSlug(name: string, suffix: nat): string
  {
    SlugStem(name) + "-" + NatToDecimal(suffix)
  }

  lemma ModuleSlugShape(name: string, suffix: nat)
    requires 1000 <= suffix <= 9999
    ensures var slug := ModuleSlug(name, suffix);
      |slug| == |SlugStem(name)| + 5 && slug[..|SlugStem(name)|] == SlugStem(name)
      && slug[|SlugStem(name)|] == '-' && IsDigits(slug[|slug| - 4..])
      && DecimalValue(slug[|slug| - 4..]) == suffix
  {
    FourDigits(suffix);
    DecimalRoundTrip(suffix);
    var slug := ModuleSlug(name, suffix);
    assert slug[|slug| - 4..] == NatToDecimal(suffix);
  }

  lemma SlugStemExample()
    ensures SlugStem("Rua!") == "rua-"
  {
    LowerOfRua();
    StripOfRua();
    DashesOfRua();
    CollapseOfRua();
  }

  lemma LowerOfRua()
    ensures ToLower("Rua!") == "rua!"
  {
    var lower := ToLower("Rua!");
    assert lower[0] == 'r' && lower[1] == 'u' && lower[2] == 'a' && lower[3] == '!';
  }

  lemma StripOfRua()
    ensures StripAccents("rua!") == "rua!"
  {
    assert StripAccents("!") == "!";
    assert StripAccents("a!") == "a!";
    assert StripAccents("ua!") == "ua!";
  }

  lemma DashesOfRua()
    ensures ReplaceNonAlnum("rua!", '-') == "rua-"
  {
    var dashed := ReplaceNonAlnum("rua!", '-');
    assert dashed[0] == 'r' && dashed[1] == 'u' && dashed[2] == 'a' && dashed[3] == '-';
  }

  lemma CollapseOfRua()
    ensures CollapseDashes("rua-") == "rua-"
  {
    assert CollapseDashes("a-") == "a-";
    assert CollapseDashes("ua-") == "ua-";
  }

  /** A name ending in punctuation keeps its dash before the separator. */
  lemma ModuleSlugTrailingDash()
    ensures ModuleSlug("Rua!", 2024) == "rua--2024"
  {
    SlugStemExample();
    DecimalOf2024();
  }

  lemma DecimalOf2024()
    ensures NatToDecimal(2024) == "2024"
  {
    assert NatToDecimal(2) == "2";
    assert NatToDecimal(20) == "20";
    assert NatToDecimal(202) == "202";
  }
}
