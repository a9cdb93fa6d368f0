/**
  Recognisers for the text the game writes to the clipboard when a player
  inspects an item: the per-language "item class" first lines, the uncut gem
  signature whose text lacks that first line, and the correction that adds it.
 */
module ItemText {

  /** One row of a detector table: a language tag and the prefix that identifies the text. */
  datatype Signature = Signature(lang: string, firstLine: string)

  /** The first line of item text, in each of the game's 11 client languages. */
  const LanguageDetector: seq<Signature> := [
    Signature("en", "Item Class: "),
    Signature("ru", "Класс предмета: "),
    Signature("fr", "Classe d'objet: "),
    Signature("de", "Gegenstandsklasse: "),
    Signature("pt", "Classe do Item: "),
    Signature("es", "Clase de objeto: "),
    Signature("th", "ชนิดไอเทม: "),
    Signature("ko", "아이템 종류: "),
    Signature("cmn-Hant", "物品種類: "),
    Signature("cmn-Hans", "物品类别: "),
    Signature("ja", "アイテムクラス: ")
  ]

  /** The second line of an uncut gem's text (English only). */
  const UncutSkillGemDetector: seq<Signature> := [
    Signature("en", "Uncut Skill Gem"),
    Signature("en", "Uncut Spirit Gem"),
    Signature("en", "Uncut Support Gem")
  ]

  /** The first line of an uncut gem's text. */
  const RarityCurrency: string := "Rarity: Currency"

  /** The item class line the game leaves out of an uncut gem's text. */
  const UncutGemClassLine: string := "Item Class: UncutSkillGem\n"

  /**
    `table.find(({ firstLine }) => s.startsWith(firstLine))` taken as a
    condition: some row of `table` has a prefix that starts `s`.
   */
  predicate HasPrefixIn(table: seq<Signature>, s: string)
  {
    exists k | 0 <= k < |table| :: table[k].firstLine <= s
  }

  datatype Option<T> = None | Some(value: T)

  /**
    `table.find(({ firstLine }) => s.startsWith(firstLine))`: the position
    of the row it returns, the first whose prefix starts `s`, or None for
    undefined. It returns a row exactly when HasPrefixIn holds.
   */
  function Find(table: seq<Signature>, s: string): (r: Option<nat>)
    ensures r.Some? <==> HasPrefixIn(table, s)
    ensures r.Some? ==> r.value < |table| && table[r.value].firstLine <= s
    ensures r.Some? ==> forall j | 0 <= j < r.value :: !(table[j].firstLine <= s)
    decreases |table|
  {
    if |table| == 0 then None
    else if table[0].firstLine <= s then Some(0)
    else
      var rest := Find(table[1..], s);
      assert HasPrefixIn(table, s) ==> HasPrefixIn(table[1..], s);
      if rest.None? then None
      else
        assert forall j | 1 <= j <= rest.value :: table[j] == table[1..][j - 1];
        Some(rest.value + 1)
  }

  /** The position of the first occurrence of `c` in `s`. */
  function FirstIndex(s: string, c: char): (i: nat)
    requires c in s
    ensures i < |s| && s[i] == c && c !in s[..i]
  {
    if s[0] == c then 0
    else
      var j := FirstIndex(s[1..], c);
      assert s[..j + 1] == [s[0]] + s[1..][..j];
      j + 1
  }

  /**
    Glues `lines` back together with `sep` between neighbours: one line is
    the text itself, and with more lines a separator follows the first.
   */
  function Join(lines: seq<string>, sep: char): (s: string)
    requires |lines| >= 1
    ensures |lines| == 1 ==> s == lines[0]
    ensures |lines| >= 2 ==> |lines[0]| < |s| && s[|lines[0]|] == sep
  {
    if |lines| == 1 then lines[0] else lines[0] + [sep] + Join(lines[1..], sep)
  }

  /**
    `s.split(sep)` for a one-character separator: the pieces between the
    separators, always at least one, and Join undoes it.
   */
  function Split(s: string, sep: char): (lines: seq<string>)
    ensures |lines| >= 1
    ensures |lines| >= 2 <==> sep in s
    ensures forall k | 0 <= k < |lines| :: sep !in lines[k]
    ensures Join(lines, sep) == s
    decreases |s|
  {
    if sep in s then
      var i := FirstIndex(s, sep);
      var rest := Split(s[i + 1..], sep);
      assert s == s[..i] + [sep] + s[i + 1..];
      [s[..i]] + rest
    else
      [s]
  }

  /** `isPoeItem`: the text starts with the item class line of some language. */
  predicate IsPoeItem(text: string)
  {
    HasPrefixIn(LanguageDetector, text)
  }

  /**
    `isUncutSkillGem`: the text has at least two lines, the first starts with
    "Rarity: Currency" and the second with one of the gem prefixes. Such text
    starts with "Rarity: Currency" and holds a line break.
   */
  function IsUncutSkillGem(text: string): (r: bool)
    ensures r ==> RarityCurrency <= text && '\n' in text
  {
    var lines := Split(text, '\n');
    if |lines| < 2 then false
    else
      assert '\n' !in RarityCurrency;
      PrefixOfFirstPiece(RarityCurrency, text, '\n');
      RarityCurrency <= lines[0] && HasPrefixIn(UncutSkillGemDetector, lines[1])
  }

  /**
    The text a poll works with: an uncut gem's text gets its missing class
    line in front, and the text itself is kept whole after it; item text
    passes through unchanged.
   */
  function CorrectUncutGem(text: string): (r: string)
    ensures r == text || r == UncutGemClassLine + text
    ensures IsPoeItem(text) ==> r == text
  {
    if IsUncutSkillGem(text) then
      UncutGemIsNotItem(text);
      UncutGemClassLine + text
    else text
  }

  // ---------------------------------------------------------------------------
  // Split and Join
  // ---------------------------------------------------------------------------

  /** Split undoes Join when no line holds the separator. */
  lemma {:induction false} SplitJoin(lines: seq<string>, sep: char)
    requires |lines| >= 1
    requires forall k | 0 <= k < |lines| :: sep !in lines[k]
    ensures Split(Join(lines, sep), sep) == lines
    decreases |lines|
  {
    if |lines| > 1 {
      var s := Join(lines, sep);
      var rest := Join(lines[1..], sep);
      assert s[..|lines[0]|] == lines[0] && s[|lines[0]| + 1..] == rest;
      FirstIndexUnique(s, sep, |lines[0]|);
      SplitJoin(lines[1..], sep);
    }
  }

  /** A separator-free prefix starts the first piece of `s` exactly when it starts `s`. */
  lemma PrefixOfFirstPiece(p: string, s: string, sep: char)
    requires sep !in p
    ensures p <= Split(s, sep)[0] <==> p <= s
  {
    if sep in s {
      var j := FirstIndex(s, sep);
      assert Split(s, sep)[0] == s[..j];
      if p <= s {
        assert |p| <= j;
      }
    }
  }

  // ---------------------------------------------------------------------------
  // The recognisers
  // ---------------------------------------------------------------------------

  /** No language's item class line is empty or starts like "Rarity: Currency". */
  lemma LanguagePrefixesStartApart(k: int)
    requires 0 <= k < |LanguageDetector|
    ensures |LanguageDetector[k].firstLine| > 0
    ensures LanguageDetector[k].firstLine[0] != RarityCurrency[0]
  {
    if k == 0 {} else if k == 1 {} else if k == 2 {} else if k == 3 {}
    else if k == 4 {} else if k == 5 {} else if k == 6 {} else if k == 7 {}
    else if k == 8 {} else if k == 9 {} else {}
  }

  /**
    Empty text is never item text, so clearing the clipboard clears stale
    item text. The text is a parameter rather than the literal "": a literal
    argument makes the verifier unfold the whole language table at the call.
   */
  lemma EmptyIsNotItem(t: string)
    requires t == ""
    ensures !IsPoeItem(t)
  {
    forall k | 0 <= k < |LanguageDetector|
      ensures !(LanguageDetector[k].firstLine <= t)
    {
      LanguagePrefixesStartApart(k);
    }
  }

  /** A first occurrence is unique: any position with `c` and no `c` before it is FirstIndex. */
  lemma FirstIndexUnique(s: string, c: char, i: int)
    requires 0 <= i < |s| && s[i] == c && c !in s[..i]
    ensures i == FirstIndex(s, c)
  {
  }

  /** No gem prefix holds a line break. */
  lemma GemPrefixesAreOneLine(k: int)
    requires 0 <= k < |UncutSkillGemDetector|
    ensures '\n' !in UncutSkillGemDetector[k].firstLine
  {
    if k == 0 {} else if k == 1 {} else {}
  }

  /** A gem prefix starts the first line of `s` exactly when it starts `s`. */
  lemma GemPrefixOfFirstLine(s: string)
    ensures HasPrefixIn(UncutSkillGemDetector, Split(s, '\n')[0]) <==> HasPrefixIn(UncutSkillGemDetector, s)
  {
    forall k | 0 <= k < |UncutSkillGemDetector|
      ensures UncutSkillGemDetector[k].firstLine <= Split(s, '\n')[0] <==>
              UncutSkillGemDetector[k].firstLine <= s
    {
      GemPrefixesAreOneLine(k);
      PrefixOfFirstPiece(UncutSkillGemDetector[k].firstLine, s, '\n');
    }
  }

  /**
    The uncut gem test, stated on the raw text: it starts with
    "Rarity: Currency", and right after its first line break comes one of
    the gem prefixes.
   */
  lemma UncutSkillGemIff(t: string)
    ensures IsUncutSkillGem(t) <==>
      RarityCurrency <= t &&
      exists i | 0 <= i < |t| && t[i] == '\n' && '\n' !in t[..i] ::
        HasPrefixIn(UncutSkillGemDetector, t[i + 1..])
  {
    assert '\n' !in RarityCurrency;
    PrefixOfFirstPiece(RarityCurrency, t, '\n');
    if '\n' in t {
      var i := FirstIndex(t, '\n');
      var lines := Split(t, '\n');
      assert lines[1] == Split(t[i + 1..], '\n')[0];
      GemPrefixOfFirstLine(t[i + 1..]);
      assert IsUncutSkillGem(t) <==>
        RarityCurrency <= t && HasPrefixIn(UncutSkillGemDetector, t[i + 1..]);
      forall i' | 0 <= i' < |t| && t[i'] == '\n' && '\n' !in t[..i']
        ensures i' == i
      {
        FirstIndexUnique(t, '\n', i');
      }
    }
  }

  /** isPoeItem takes `find`'s result as a condition: text is item text exactly when a row is found. */
  lemma ItemTextIsFound(t: string)
    ensures IsPoeItem(t) <==> Find(LanguageDetector, t).Some?
    ensures IsPoeItem(t) ==> LanguageDetector[Find(LanguageDetector, t).value].firstLine <= t
  {
  }

  /**
    isUncutSkillGem takes `find`'s result on the second line as a condition:
    gem text is text of two or more lines whose first starts with
    "Rarity: Currency" and for whose second a gem row is found.
   */
  lemma UncutSkillGemIsFound(t: string)
    ensures IsUncutSkillGem(t) <==>
      var lines := Split(t, '\n');
      |lines| >= 2 && RarityCurrency <= lines[0] && Find(UncutSkillGemDetector, lines[1]).Some?
  {
  }

  /** Uncut gem text is never item text as it stands: its first character is 'R'. */
  lemma UncutGemIsNotItem(t: string)
    requires IsUncutSkillGem(t)
    ensures !IsPoeItem(t)
  {
    UncutSkillGemIff(t);
    assert t[0] == RarityCurrency[0];
    forall k | 0 <= k < |LanguageDetector|
      ensures !(LanguageDetector[k].firstLine <= t)
    {
      LanguagePrefixesStartApart(k);
    }
  }

  /**
    After the correction, text is accepted exactly when it was item text or
    uncut gem text; the correction adds the class line to gem text and leaves
    every other text as it is.
   */
  lemma CorrectionAccepts(t: string)
    ensures IsPoeItem(CorrectUncutGem(t)) <==> IsPoeItem(t) || IsUncutSkillGem(t)
    ensures CorrectUncutGem(t) == if IsUncutSkillGem(t) then "Item Class: UncutSkillGem\n" + t else t
  {
    if IsUncutSkillGem(t) {
      var c := UncutGemClassLine + t;
      assert LanguageDetector[0].firstLine == c[..12];
    }
  }

  /**
    Gem text as the game writes it, "Rarity: Currency", a line break, a gem
    name and anything after, gets exactly the missing class line prepended.
   */
  lemma MissingClassLineIsAdded(k: int, rest: string)
    requires 0 <= k < |UncutSkillGemDetector|
    ensures CorrectUncutGem(RarityCurrency + "\n" + UncutSkillGemDetector[k].firstLine + rest)
         == UncutGemClassLine + (RarityCurrency + "\n" + UncutSkillGemDetector[k].firstLine + rest)
  {
    var gem := UncutSkillGemDetector[k].firstLine;
    var t := RarityCurrency + "\n" + gem + rest;
    assert t[..|RarityCurrency|] == RarityCurrency;
    assert t[|RarityCurrency|] == '\n';
    assert '\n' !in RarityCurrency;
    assert t[|RarityCurrency| + 1..] == gem + rest;
    assert HasPrefixIn(UncutSkillGemDetector, t[|RarityCurrency| + 1..]);
    UncutSkillGemIff(t);
  }

  /** Text that already has its class line is item text and is not corrected. */
  lemma EnglishGemTextIsItem(rest: string)
    ensures IsPoeItem("Item Class: Currency\nRarity: Currency\nUncut Skill Gem" + rest)
    ensures CorrectUncutGem("Item Class: Currency\nRarity: Currency\nUncut Skill Gem" + rest)
         == "Item Class: Currency\nRarity: Currency\nUncut Skill Gem" + rest
  {
    var t := "Item Class: Currency\nRarity: Currency\nUncut Skill Gem" + rest;
    assert LanguageDetector[0].firstLine <= t;
  }
}
