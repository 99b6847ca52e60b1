/** Names for GitHub repositories: normalisation, the word test, and the prefix rules. */
module Naming {
  import opened Common

  // ---------- normalisation ----------

  /** Lower case, as far as it matters: besides A to Z, the dotted I and the Kelvin sign become ASCII letters; every
      other character outside ASCII stays outside and is dropped later. */
  function LowerChar(c: char): char {
    if 'A' <= c <= 'Z' then 'a' + (c - 'A')
    else if c == '\U{0130}' then 'i'
    else if c == '\U{212A}' then 'k'
    else c
  }

  function DashChar(c: char): char {
    if c == ' ' || c == '_' then '-' else c
  }

  predicate IsAllowed(c: char) {
    'a' <= c <= 'z' || '0' <= c <= '9' || c == '-' || c == '.'
  }

  /** Lower case with hyphens for spaces and underscores. */
  function Mapped(s: string): string {
    seq(|s|, i requires 0 <= i < |s| => DashChar(LowerChar(s[i])))
  }

  function Filtered(s: string, p: char -> bool): string {
    if s == "" then ""
    else if p(Last(s)) then Filtered(s[..|s| - 1], p) + [Last(s)]
    else Filtered(s[..|s| - 1], p)
  }

  function Kept(s: string): string {
    Filtered(s, IsAllowed)
  }

  /** One pass of replacing two hyphens by one, from left to right and without overlap. */
  function Replaced(s: string): (r: string)
    ensures |r| <= |s| && (HasDouble(s) ==> |r| < |s|)
    ensures (s == "" <==> r == "") && (s != "" ==> r[0] == s[0])
  {
    if |s| < 2 then s
    else if s[0] == '-' && s[1] == '-' then "-" + Replaced(s[2..])
    else
      assert HasDouble(s) ==> HasDouble(s[1..]) by { if HasDouble(s) { DoubleInTail(s); } }
      [s[0]] + Replaced(s[1..])
  }

  /** Every run of hyphens becomes one hyphen. */
  function Squeezed(s: string): (r: string)
    ensures |r| <= |s| && (s == "" <==> r == "") && (s != "" ==> r[0] == s[0])
  {
    if |s| < 2 then s
    else if s[0] == '-' && s[1] == '-' then Squeezed(s[1..])
    else [s[0]] + Squeezed(s[1..])
  }

  function TrimLeft(s: string): string {
    if s != "" && s[0] == '-' then TrimLeft(s[1..]) else s
  }

  function TrimRight(s: string): string {
    if s != "" && Last(s) == '-' then TrimRight(s[..|s| - 1]) else s
  }

  function Normalized(name: string): string {
    TrimRight(TrimLeft(Squeezed(Kept(Mapped(name)))))
  }

  predicate DoubleAt(s: string, i: nat)
    requires i < |s| - 1
  {
    s[i] == '-' && s[i + 1] == '-'
  }

  predicate HasDouble(s: string) {
    exists i | 0 <= i < |s| - 1 :: DoubleAt(s, i)
  }

  lemma {:induction false} DoubleInTail(s: string)
    requires |s| >= 2 && HasDouble(s) && !DoubleAt(s, 0)
    ensures HasDouble(s[1..])
  {
    var i :| 0 <= i < |s| - 1 && DoubleAt(s, i);
    assert DoubleAt(s[1..], i - 1);
  }

  /** What a normalised name looks like. */
  predicate Clean(s: string) {
    (forall c | c in s :: IsAllowed(c)) && !HasDouble(s) && (s != "" ==> s[0] != '-' && Last(s) != '-')
  }

  // ---------- the loop that removes runs of hyphens ----------

  lemma {:induction false} SqueezedCons(c: char, s: string)
    ensures Squeezed([c] + s) == if c == '-' && s != "" && s[0] == '-' then Squeezed(s) else [c] + Squeezed(s)
  {
    assert ([c] + s)[1..] == s;
  }

  /** A pass does not change what the runs come down to. */
  lemma {:induction false} ReplacedSqueezes(s: string)
    ensures Squeezed(Replaced(s)) == Squeezed(s)
    decreases |s|
  {
    if |s| >= 2 {
      if s[0] == '-' && s[1] == '-' {
        ReplacedSqueezes(s[2..]);
        SqueezedCons('-', Replaced(s[2..]));
        SqueezedCons('-', s[2..]);
        assert s[1..] == ['-'] + s[2..];
      } else {
        ReplacedSqueezes(s[1..]);
        SqueezedCons(s[0], Replaced(s[1..]));
        SqueezedCons(s[0], s[1..]);
        assert s == [s[0]] + s[1..];
      }
    }
  }

  lemma {:induction false} SqueezedIsSingle(s: string)
    ensures !HasDouble(Squeezed(s))
    ensures forall c | c in Squeezed(s) :: c in s
    decreases |s|
  {
    if |s| >= 2 {
      SqueezedIsSingle(s[1..]);
      var r, t := Squeezed(s), Squeezed(s[1..]);
      if HasDouble(r) && r != t {
        assert r[1..] == t;
        if !DoubleAt(r, 0) {
          DoubleInTail(r);
        }
      }
    }
  }

  lemma {:induction false} SingleIsSqueezed(s: string)
    requires !HasDouble(s)
    ensures Squeezed(s) == s
    decreases |s|
  {
    if |s| >= 2 {
      assert !DoubleAt(s, 0);
      assert !HasDouble(s[1..]) by {
        if HasDouble(s[1..]) {
          var i :| 0 <= i < |s| - 2 && DoubleAt(s[1..], i);
          assert DoubleAt(s, i + 1);
        }
      }
      SingleIsSqueezed(s[1..]);
    }
  }

  // ---------- normalised names are exactly the fixed points ----------

  lemma {:induction false} FilteredIs(s: string, p: char -> bool)
    ensures forall c | c in Filtered(s, p) :: p(c) && c in s
    ensures (forall c | c in s :: p(c)) ==> Filtered(s, p) == s
  {
    if s != "" {
      FilteredIs(s[..|s| - 1], p);
    }
  }

  lemma {:induction false} TrimLeftIs(s: string) returns (k: nat)
    ensures k <= |s| && TrimLeft(s) == s[k..] && (k < |s| ==> s[k] != '-') && forall i | 0 <= i < k :: s[i] == '-'
  {
    if s != "" && s[0] == '-' {
      var j := TrimLeftIs(s[1..]);
      k := j + 1;
    } else {
      k := 0;
    }
  }

  lemma {:induction false} TrimRightIs(s: string) returns (k: nat)
    ensures k <= |s| && TrimRight(s) == s[..k] && (k > 0 ==> s[k - 1] != '-') && forall i | k <= i < |s| :: s[i] == '-'
  {
    if s != "" && Last(s) == '-' {
      k := TrimRightIs(s[..|s| - 1]);
      assert s[..|s| - 1][..k] == s[..k];
    } else {
      k := |s|;
    }
  }

  lemma {:induction false} SliceIsSingle(s: string, i: nat, j: nat)
    requires i <= j <= |s| && !HasDouble(s)
    ensures !HasDouble(s[i..j])
  {
    if HasDouble(s[i..j]) {
      var k :| 0 <= k < j - i - 1 && DoubleAt(s[i..j], k);
      assert DoubleAt(s, i + k);
    }
  }

  lemma {:induction false} TrimmedIsClean(s: string)
    requires (forall c | c in s :: IsAllowed(c)) && !HasDouble(s)
    ensures Clean(TrimRight(TrimLeft(s)))
  {
    var k := TrimLeftIs(s);
    var j := TrimRightIs(s[k..]);
    SliceIsSingle(s, k, k + j);
    hide HasDouble, TrimLeft, TrimRight, IsAllowed;
    var r := s[k..k + j];
    assert s[k..][..j] == r;
    assert r != "" ==> r[0] == s[k];
  }

  lemma {:induction false} NormalizedIsClean(name: string)
    ensures Clean(Normalized(name))
  {
    hide HasDouble, Clean;
    FilteredIs(Mapped(name), IsAllowed);
    SqueezedIsSingle(Kept(Mapped(name)));
    TrimmedIsClean(Squeezed(Kept(Mapped(name))));
  }

  lemma {:induction false} CleanIsFixed(s: string)
    requires Clean(s)
    ensures Normalized(s) == s
  {
    assert Mapped(s) == s by {
      assert forall i | 0 <= i < |s| :: s[i] in s;
    }
    FilteredIs(s, IsAllowed);
    SingleIsSqueezed(s);
  }

  /** A name is left as it is if and only if it is clean; so normalising twice is normalising once. */
  lemma {:induction false} FixedIffClean(s: string)
    ensures Normalized(s) == s <==> Clean(s)
    ensures Normalized(Normalized(s)) == Normalized(s)
  {
    NormalizedIsClean(s);
    CleanIsFixed(Normalized(s));
    if Clean(s) {
      CleanIsFixed(s);
    }
  }

  predicate IsNameChar(c: char) {
    IsAllowed(c) && c != '-'
  }

  lemma {:induction false} FilteredAppend(s: string, t: string, p: char -> bool)
    ensures Filtered(s + t, p) == Filtered(s, p) + Filtered(t, p)
    decreases |t|
  {
    if t == "" {
      assert s + t == s;
    } else {
      assert (s + t)[..|s + t| - 1] == s + t[..|t| - 1];
      FilteredAppend(s, t[..|t| - 1], p);
    }
  }

  lemma {:induction false} HyphensVanish(s: string)
    requires forall i | 0 <= i < |s| :: s[i] == '-'
    ensures Filtered(s, IsNameChar) == ""
  {
    if s != "" {
      HyphensVanish(s[..|s| - 1]);
    }
  }

  lemma {:induction false} SqueezedKeepsLetters(s: string)
    ensures Filtered(Squeezed(s), IsNameChar) == Filtered(s, IsNameChar)
    decreases |s|
  {
    if |s| >= 2 {
      SqueezedKeepsLetters(s[1..]);
      assert s == [s[0]] + s[1..];
      FilteredAppend([s[0]], s[1..], IsNameChar);
      FilteredAppend([s[0]], Squeezed(s[1..]), IsNameChar);
      if s[0] == '-' {
        HyphensVanish([s[0]]);
      }
    }
  }

  lemma {:induction false} KeptKeepsLetters(s: string)
    ensures Filtered(Kept(s), IsNameChar) == Filtered(s, IsNameChar)
  {
    if s != "" {
      KeptKeepsLetters(s[..|s| - 1]);
      assert Filtered([Last(s)], IsNameChar) == if IsNameChar(Last(s)) then [Last(s)] else "";
      FilteredAppend(Kept(s[..|s| - 1]), [Last(s)], IsNameChar);
    }
  }

  lemma {:induction false} TrimLeftKeepsLetters(s: string)
    ensures Filtered(TrimLeft(s), IsNameChar) == Filtered(s, IsNameChar)
  {
    if s != "" && s[0] == '-' {
      TrimLeftKeepsLetters(s[1..]);
      assert s == [s[0]] + s[1..];
      FilteredAppend([s[0]], s[1..], IsNameChar);
      HyphensVanish([s[0]]);
    }
  }

  lemma {:induction false} TrimRightKeepsLetters(s: string)
    ensures Filtered(TrimRight(s), IsNameChar) == Filtered(s, IsNameChar)
  {
    if s != "" && Last(s) == '-' {
      TrimRightKeepsLetters(s[..|s| - 1]);
    }
  }

  /** Normalising loses and reorders no letter, digit or dot of the lower-cased name. */
  lemma {:induction false} LettersSurvive(name: string)
    ensures Filtered(Normalized(name), IsNameChar) == Filtered(Mapped(name), IsNameChar)
  {
    var kept := Kept(Mapped(name));
    KeptKeepsLetters(Mapped(name));
    SqueezedKeepsLetters(kept);
    TrimLeftKeepsLetters(Squeezed(kept));
    TrimRightKeepsLetters(TrimLeft(Squeezed(kept)));
    hide Filtered, Kept, Mapped;
  }

  // ---------- words ----------

  predicate IsSeparator(c: char) {
    c == '-' || c == '_' || c == ' ' || c == '.'
  }

  function WordEnd(s: string): (k: nat)
    ensures k <= |s| && (k < |s| ==> IsSeparator(s[k]))
    ensures forall i | 0 <= i < k :: !IsSeparator(s[i])
  {
    if s == "" || IsSeparator(s[0]) then 0 else 1 + WordEnd(s[1..])
  }

  /** The maximal runs of characters that are no separators. */
  function Fields(s: string): seq<string>
    decreases |s|
  {
    if s == "" then []
    else if IsSeparator(s[0]) then Fields(s[1..])
    else [s[..WordEnd(s)]] + Fields(s[WordEnd(s)..])
  }

  /** Equality up to case for characters that fold to ASCII. */
  function FoldChar(c: char): char {
    if 'A' <= c <= 'Z' then 'a' + (c - 'A')
    else if c == '\U{212A}' then 'k'
    else if c == '\U{017F}' then 's'
    else c
  }

  predicate EqualFold(a: string, b: string) {
    |a| == |b| && forall i | 0 <= i < |a| :: FoldChar(a[i]) == FoldChar(b[i])
  }

  predicate HasWord(name: string, word: string) {
    exists part | part in Fields(name) :: EqualFold(part, word)
  }

  predicate OneWord(word: string) {
    word != "" && forall i | 0 <= i < |word| :: !IsSeparator(word[i])
  }

  lemma {:induction false} FieldsAreWords(s: string)
    ensures forall part | part in Fields(s) :: OneWord(part)
    decreases |s|
  {
    if s != "" {
      if IsSeparator(s[0]) {
        FieldsAreWords(s[1..]);
      } else {
        FieldsAreWords(s[WordEnd(s)..]);
      }
    }
  }

  lemma {:induction false} OnlyWordsAreFound(name: string, word: string)
    requires HasWord(name, word)
    ensures OneWord(word)
  {
    FieldsAreWords(name);
    var part :| part in Fields(name) && EqualFold(part, word);
    forall i | 0 <= i < |word| ensures !IsSeparator(word[i]) {
      assert !IsSeparator(part[i]) && FoldChar(part[i]) == FoldChar(word[i]);
    }
  }

  lemma {:induction false} PrefixIsFound(word: string, rest: string)
    requires OneWord(word)
    ensures HasWord(word + "-" + rest, word)
  {
    var s := word + "-" + rest;
    assert s[0] == word[0] && s[|word|] == '-' && forall i | 0 <= i < |word| :: s[i] == word[i];
    assert WordEnd(s) == |word|;
    assert s[..|word|] == word && Fields(s)[0] == word;
    assert word in Fields(s) && EqualFold(word, word);
  }

  // ---------- the rules ----------

  datatype Resource = Resource(kind: string, sourceName: string)

  datatype Source = Source(repository: string, isProductRepo: bool, businessUnit: string)

  datatype Target = Target(repository: string, autoGenerateName: bool)

  datatype Migration = Migration(source: Source, target: Target, resources: seq<Resource>)

  function Prefixed(source: Source, repoName: string): string {
    if source.isProductRepo then
      if HasWord(repoName, "product") then repoName else "product-" + repoName
    else if source.businessUnit == "" then repoName
    else
      var buName := Normalized(source.businessUnit);
      if HasWord(repoName, buName) then repoName else buName + "-" + repoName
  }

  function FirstRepository(resources: seq<Resource>): string {
    if resources == [] then ""
    else if resources[0].kind == "repository" then resources[0].sourceName
    else FirstRepository(resources[1..])
  }

  function SourceName(m: Migration): string {
    if m.source.repository != "" then m.source.repository else FirstRepository(m.resources)
  }

  function RepositoryName(m: Migration): Option<string> {
    if SourceName(m) == "" then None
    else if m.target.repository != "" && !m.target.autoGenerateName then Some(Normalized(m.target.repository))
    else Some(Prefixed(m.source, Normalized(SourceName(m))))
  }

  lemma {:induction false} JoinIsCleanIff(a: string, b: string)
    requires Clean(a) && Clean(b)
    ensures Clean(a + "-" + b) <==> a != "" && b != ""
  {
    var s := a + "-" + b;
    if a != "" && b != "" {
      forall i | 0 <= i < |s| - 1 ensures !DoubleAt(s, i) {
        if i < |a| - 1 {
          assert !DoubleAt(a, i);
        } else if i > |a| {
          assert !DoubleAt(b, i - |a| - 1);
        }
      }
    } else if a == "" {
      assert s[0] == '-';
    } else {
      assert Last(s) == '-';
    }
  }

  lemma {:induction false} ProductIsClean()
    ensures Clean("product") && OneWord("product")
  {
  }

  /** The prefix that the rules put before a name, if they put one. */
  function Prefix(source: Source): Option<string> {
    if source.isProductRepo then Some("product")
    else if source.businessUnit == "" then None
    else Some(Normalized(source.businessUnit))
  }

  lemma {:induction false} PrefixedIs(source: Source, repoName: string)
    ensures var p := Prefix(source);
      Prefixed(source, repoName) ==
        if p.None? || HasWord(repoName, p.value) then repoName else p.value + "-" + repoName
    ensures Prefix(source).Some? ==> Clean(Prefix(source).value)
  {
    ProductIsClean();
    NormalizedIsClean(source.businessUnit);
    assert "product" + "-" + repoName == "product-" + repoName;
  }

  /** A generated name is normalised already, except when a prefix is added and it or the name has come down to
      nothing. */
  lemma {:induction false} GeneratedIsCleanIff(m: Migration)
    requires RepositoryName(m).Some?
    ensures var name, p := Normalized(SourceName(m)), Prefix(m.source);
      Clean(RepositoryName(m).value) <==>
        (m.target.repository != "" && !m.target.autoGenerateName) || p.None? || HasWord(name, p.value) ||
        (p.value != "" && name != "")
  {
    NormalizedIsClean(SourceName(m));
    NormalizedIsClean(m.target.repository);
    var name, p := Normalized(SourceName(m)), Prefix(m.source);
    PrefixedIs(m.source, name);
    if p.Some? {
      JoinIsCleanIff(p.value, name);
    }
    hide Clean, HasWord, Normalized;
  }

  /** Prefixing a second time changes nothing if and only if there is no prefix or it is a single word. */
  lemma {:induction false} PrefixOnceIff(source: Source, repoName: string)
    ensures Prefixed(source, Prefixed(source, repoName)) == Prefixed(source, repoName) <==>
      Prefix(source).None? || OneWord(Prefix(source).value)
  {
    var p := Prefix(source);
    PrefixedIs(source, repoName);
    PrefixedIs(source, Prefixed(source, repoName));
    if p.Some? {
      if OneWord(p.value) {
        PrefixIsFound(p.value, repoName);
      } else {
        if HasWord(repoName, p.value) {
          OnlyWordsAreFound(repoName, p.value);
        }
        if HasWord(p.value + "-" + repoName, p.value) {
          OnlyWordsAreFound(p.value + "-" + repoName, p.value);
        }
      }
    }
    hide HasWord, OneWord, Normalized;
  }

  /** A prefix that is not one word is added again and again. */
  lemma {:induction false} WordlessIsAddedAgain(source: Source, repoName: string)
    requires Prefix(source).Some? && !OneWord(Prefix(source).value)
    ensures Prefixed(source, repoName) == Prefix(source).value + "-" + repoName
    ensures |Prefixed(source, Prefixed(source, repoName))| == |Prefixed(source, repoName)| + |Prefix(source).value| + 1
  {
    hide HasWord, OneWord, Prefixed, Prefix;
    var once := Prefix(source).value + "-" + repoName;
    WordlessIsPrefixed(repoName, Prefix(source).value);
    WordlessIsPrefixed(once, Prefix(source).value);
    PrefixedIs(source, repoName);
    PrefixedIs(source, once);
  }

  const TWO_WORDS := Source("", false, "data platform")

  lemma {:induction false} TwoWordsNormalized()
    ensures Prefix(TWO_WORDS) == Some("data-platform") && !OneWord("data-platform")
  {
    var unit := "data-platform";
    assert Mapped("data platform") == unit && Mapped(unit) == unit;
    assert IsSeparator(unit[4]);
    CleanUnit();
    CleanIsFixed(unit);
    hide Kept, Squeezed, TrimLeft, TrimRight;
  }

  lemma {:induction false} CleanUnit()
    ensures Clean("data-platform")
  {
    var unit := "data-platform";
    forall i | 0 <= i < |unit| - 1 ensures !DoubleAt(unit, i) {
    }
  }

  /** A business unit of two words: the second prefixing adds it again. */
  lemma {:induction false} TwoWordsAreAddedTwice(repoName: string)
    ensures Prefixed(TWO_WORDS, Prefixed(TWO_WORDS, repoName)) != Prefixed(TWO_WORDS, repoName) ==
      "data-platform" + "-" + repoName
  {
    TwoWordsNormalized();
    hide Prefixed, Prefix, OneWord;
    WordlessIsAddedAgain(TWO_WORDS, repoName);
  }

  lemma {:induction false} LeadingHyphenDrops(s: string)
    requires Clean(s) && s != ""
    ensures Normalized("-" + s) == s
  {
    var t := "-" + s;
    assert t[1..] == s && t == ['-'] + s;
    assert Mapped(t) == t by {
      assert forall i | 0 < i < |t| :: t[i] == s[i - 1] && s[i - 1] in s;
    }
    assert forall c | c in t :: IsAllowed(c) by {
      assert forall i | 0 < i < |t| :: t[i] == s[i - 1] && s[i - 1] in s;
    }
    FilteredIs(t, IsAllowed);
    SqueezedCons('-', s);
    SingleIsSqueezed(s);
    assert TrimLeft(t) == TrimLeft(s) == s && TrimRight(s) == s;
  }

  /** Normalising a prefixed name and prefixing it again changes nothing, if and only if there is no prefix or it is one
      word or has come down to nothing. */
  lemma {:induction false} PrefixedAgainIff(source: Source, name: string)
    requires Clean(name) && name != ""
    ensures var p, once := Prefix(source), Prefixed(source, name);
      once != "" && (Prefixed(source, Normalized(once)) == once <==> p.None? || p.value == "" || OneWord(p.value))
  {
    var p, once := Prefix(source), Prefixed(source, name);
    PrefixedIs(source, name);
    if p.Some? && p.value == "" {
      WordlessIsPrefixed(name, "");
      assert once == "" + "-" + name == "-" + name;
      LeadingHyphenDrops(name);
    } else {
      if p.Some? {
        JoinIsCleanIff(p.value, name);
      }
      CleanIsFixed(once);
      PrefixOnceIff(source, name);
    }
    hide HasWord, Normalized, Clean, OneWord;
  }

  /** Migrating again from a repository that bears the generated name generates the same name, under the same
      condition. */
  lemma {:induction false} GeneratedNameIsStableIff(m: Migration)
    requires RepositoryName(m).Some? && Normalized(SourceName(m)) != ""
    requires m.target.repository == "" || m.target.autoGenerateName
    ensures var name, p := RepositoryName(m).value, Prefix(m.source);
      RepositoryName(m.(source := m.source.(repository := name))) == Some(name) <==>
        p.None? || p.value == "" || OneWord(p.value)
  {
    hide HasWord, Normalized, Clean, OneWord;
    NormalizedIsClean(SourceName(m));
    PrefixedAgainIff(m.source, Normalized(SourceName(m)));
  }

  lemma {:induction false} WordlessIsPrefixed(name: string, word: string)
    requires !OneWord(word)
    ensures !HasWord(name, word)
  {
    if HasWord(name, word) {
      OnlyWordsAreFound(name, word);
    }
  }

  // ---------- the functions with loops ----------

  /** normalizeRepositoryName. */
  method NormalizeRepositoryName(name: string) returns (normalized: string)
    ensures normalized == Normalized(name) && Clean(normalized)
  {
    var mapped := Mapped(name);
    var result := "";
    for i := 0 to |mapped|
      invariant result == Kept(mapped[..i])
    {
      assert mapped[..i + 1][..i] == mapped[..i];
      var c := mapped[i];
      if ('a' <= c <= 'z') || ('0' <= c <= '9') || c == '-' || c == '.' {
        result := result + [c];
      }
    }
    assert mapped[..|mapped|] == mapped;
    normalized := result;
    var double := ContainsDouble(normalized);
    while double
      invariant Squeezed(normalized) == Squeezed(result) && double == HasDouble(normalized)
      decreases |normalized|
    {
      ReplacedSqueezes(normalized);
      normalized := Replaced(normalized);
      double := ContainsDouble(normalized);
    }
    SingleIsSqueezed(normalized);
    normalized := TrimRight(TrimLeft(normalized));
    NormalizedIsClean(name);
  }

  method ContainsDouble(s: string) returns (double: bool)
    ensures double == HasDouble(s)
  {
    double := false;
    for i := 0 to |s|
      invariant !double && forall j | 0 <= j < i && j < |s| - 1 :: !DoubleAt(s, j)
    {
      if i + 1 < |s| && s[i] == '-' && s[i + 1] == '-' {
        assert DoubleAt(s, i);
        return true;
      }
    }
  }

  /** containsWord. */
  method ContainsWord(name: string, word: string) returns (found: bool)
    ensures found == HasWord(name, word)
  {
    var parts := Fields(name);
    for i := 0 to |parts|
      invariant forall j | 0 <= j < i :: !EqualFold(parts[j], word)
    {
      if EqualFold(parts[i], word) {
        return true;
      }
    }
    found := false;
  }

  method GenerateNameWithPrefix(source: Source, repoName: string) returns (name: string)
    ensures name == Prefixed(source, repoName)
  {
    if source.isProductRepo {
      var has := ContainsWord(repoName, "product");
      return if has then repoName else "product-" + repoName;
    }
    if source.businessUnit == "" {
      return repoName;
    }
    var buName := NormalizeRepositoryName(source.businessUnit);
    var has := ContainsWord(repoName, buName);
    name := if has then repoName else buName + "-" + repoName;
  }

  /** GenerateGitHubRepositoryName; None is its error. */
  method GenerateGitHubRepositoryName(m: Migration) returns (name: Option<string>)
    ensures name == RepositoryName(m)
  {
    var sourceRepoName := m.source.repository;
    if sourceRepoName == "" {
      var i := 0;
      while i < |m.resources| && m.resources[i].kind != "repository"
        invariant 0 <= i <= |m.resources| && FirstRepository(m.resources) == FirstRepository(m.resources[i..])
      {
        assert m.resources[i..][1..] == m.resources[i + 1..];
        i := i + 1;
      }
      if i < |m.resources| {
        sourceRepoName := m.resources[i].sourceName;
      }
    }
    if sourceRepoName == "" {
      return None;
    }
    var normalizedName := NormalizeRepositoryName(sourceRepoName);
    if m.target.repository != "" && !m.target.autoGenerateName {
      var customName := NormalizeRepositoryName(m.target.repository);
      return Some(customName);
    }
    var generated := GenerateNameWithPrefix(m.source, normalizedName);
    name := Some(generated);
  }
}
