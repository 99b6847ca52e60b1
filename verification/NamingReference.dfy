/** The naming rules told in another way: normalisation in one pass over the characters, words as runs of characters,
    and which name is chosen. */
module NamingReference {
  import opened Common
  import opened Naming

  // ---------- characters ----------

  predicate IsUpperOf(u: char, l: char) {
    'a' <= l <= 'z' && u as int + 32 == l as int
  }

  const KELVIN := '\U{212A}'
  const DOTTED_I := '\U{0130}'
  const LONG_S := '\U{017F}'

  /** The character l stands in a normalised name for c. */
  predicate StandsFor(l: char, c: char) {
    (l == c && ('a' <= c <= 'z' || '0' <= c <= '9' || c == '.')) || IsUpperOf(c, l) ||
    (l == 'k' && c == KELVIN) || (l == 'i' && c == DOTTED_I)
  }

  predicate IsGap(c: char) {
    c == '-' || c == ' ' || c == '_'
  }

  /** The same letter, upper or lower case, or the same character. */
  predicate SameLetter(a: char, b: char) {
    a == b || IsUpperOf(a, b) || IsUpperOf(b, a) ||
    (a in {'k', 'K', KELVIN} && b in {'k', 'K', KELVIN}) || (a in {'s', 'S', LONG_S} && b in {'s', 'S', LONG_S})
  }

  lemma {:induction false} MappedCharIs(c: char)
    ensures var x := DashChar(LowerChar(c));
      (x == '-' <==> IsGap(c)) && (forall l :: StandsFor(l, c) <==> x == l && IsNameChar(x))
  {
  }

  lemma {:induction false} FoldIs(a: char, b: char)
    ensures FoldChar(a) == FoldChar(b) <==> SameLetter(a, b)
  {
  }

  // ---------- normalisation in one pass ----------

  /** What has been put out so far, and whether a gap has come since. */
  datatype Scan = Scan(out: string, gap: bool)

  /** A letter, digit or dot is put out, after one hyphen if there has been a gap since the last; the rest is dropped.
      */
  ghost predicate Reads(b: Scan, c: char, a: Scan) {
    if IsGap(c) then a == b.(gap := true)
    else if exists l :: StandsFor(l, c) then
      exists l | StandsFor(l, c) :: a == Scan(b.out + (if b.gap && b.out != "" then "-" else "") + [l], false)
    else a == b
  }

  /** The scan has read the whole name, one character after the other. */
  ghost predicate Scans(name: string, a: Scan) {
    if name == "" then a == Scan("", false)
    else exists b :: Scans(name[..|name| - 1], b) && Reads(b, Last(name), a)
  }

  /** What the passes have made of a name before hyphens are trimmed at its end. */
  function Shown(a: Scan): string {
    a.out + if a.gap && a.out != "" then "-" else ""
  }

  lemma {:induction false} SqueezedAppend(s: string, x: char)
    ensures Squeezed(s + [x]) == Squeezed(s) + if x == '-' && s != "" && Last(s) == '-' then "" else [x]
    decreases |s|
  {
    if |s| >= 2 {
      SqueezedAppend(s[1..], x);
      assert (s + [x])[1..] == s[1..] + [x];
    } else if |s| == 1 {
      assert (s + [x])[1..] == [x];
    }
  }

  lemma {:induction false} SqueezedEnds(s: string)
    requires s != ""
    ensures Squeezed(s) != "" && Last(Squeezed(s)) == Last(s)
    decreases |s|
  {
    if |s| >= 2 {
      SqueezedEnds(s[1..]);
    }
  }

  lemma {:induction false} TrimLeftAppend(s: string, x: char)
    ensures TrimLeft(s + [x]) ==
      if TrimLeft(s) != "" then TrimLeft(s) + [x] else if x == '-' then "" else [x]
    decreases |s|
  {
    if s == "" {
      assert s + [x] == [x] && [x][1..] == "";
    } else if s[0] == '-' {
      assert (s + [x])[1..] == s[1..] + [x];
      TrimLeftAppend(s[1..], x);
    }
  }

  /** Before hyphens are trimmed at the end. */
  function Opened(kept: string): string {
    TrimLeft(Squeezed(kept))
  }

  lemma {:induction false} OpenedEnds(kept: string)
    ensures Opened(kept) != "" ==> kept != "" && Last(Opened(kept)) == Last(kept)
  {
    if kept != "" {
      SqueezedEnds(kept);
      var k := TrimLeftIs(Squeezed(kept));
    }
  }

  lemma {:induction false} OpenedAppend(kept: string, x: char)
    ensures var o, o' := Opened(kept), Opened(kept + [x]);
      o' == if x != '-' then o + [x] else if o != "" && Last(o) != '-' then o + "-" else o
  {
    OpenedEnds(kept);
    SqueezedAppend(kept, x);
    TrimLeftAppend(Squeezed(kept), x);
    assert Squeezed(kept) + "" == Squeezed(kept);
    if kept != "" {
      SqueezedEnds(kept);
      var k := TrimLeftIs(Squeezed(kept));
      assert Opened(kept) == "" && Last(kept) != '-' ==> k == |Squeezed(kept)|;
    }
    hide Squeezed, TrimLeft;
  }

  lemma {:induction false} KeptAppend(name: string, c: char)
    ensures var x := DashChar(LowerChar(c));
      Kept(Mapped(name + [c])) == Kept(Mapped(name)) + if IsAllowed(x) then [x] else ""
  {
    var x := DashChar(LowerChar(c));
    assert Mapped(name + [c]) == Mapped(name) + [x];
    assert (Mapped(name) + [x])[..|name|] == Mapped(name);
    assert Kept(Mapped(name)) + "" == Kept(Mapped(name));
  }

  lemma {:induction false} ScanShows(name: string, a: Scan)
    requires Scans(name, a)
    ensures Opened(Kept(Mapped(name))) == Shown(a) && (a.out != "" ==> Last(a.out) != '-')
  {
    if name != "" {
      var init, c := name[..|name| - 1], Last(name);
      var b :| Scans(init, b) && Reads(b, c, a);
      ScanShows(init, b);
      hide Opened, Mapped, Scans, Kept, Reads, Shown;
      assert name == init + [c];
      ReadShows(init, b, c, a);
    } else {
      assert Mapped(name) == "";
    }
  }

  lemma {:induction false} ReadShows(name: string, b: Scan, c: char, a: Scan)
    requires Reads(b, c, a) && (b.out != "" ==> Last(b.out) != '-') && Opened(Kept(Mapped(name))) == Shown(b)
    ensures Opened(Kept(Mapped(name + [c]))) == Shown(a) && (a.out != "" ==> Last(a.out) != '-')
  {
    hide Opened, Mapped, Kept, Reads, Shown, LowerChar, DashChar, IsAllowed;
    KeptAppend(name, c);
    OpenedAppend(Kept(Mapped(name)), DashChar(LowerChar(c)));
    OneRead(b, c, a);
    assert Kept(Mapped(name)) + "" == Kept(Mapped(name));
  }

  lemma {:induction false} OneRead(b: Scan, c: char, a: Scan)
    requires Reads(b, c, a) && (b.out != "" ==> Last(b.out) != '-')
    ensures var x, o := DashChar(LowerChar(c)), Shown(b);
      Shown(a) == (if !IsAllowed(x) then o else if x != '-' then o + [x]
                   else if o != "" && Last(o) != '-' then o + "-" else o) &&
      (a.out != "" ==> Last(a.out) != '-')
  {
    MappedCharIs(c);
    var x := DashChar(LowerChar(c));
    assert StandsFor(x, c) <==> IsNameChar(x);
    var gap := if b.gap && b.out != "" then "-" else "";
    assert Shown(b) == b.out + gap;
    if IsGap(c) {
      assert b.out + "" == b.out;
      assert b.gap && b.out != "" ==> Last(Shown(b)) == '-';
    } else if l :| StandsFor(l, c) {
      assert a == Scan(b.out + gap + [l], false) && Last(a.out) == l;
      assert a.out + "" == a.out;
    }
  }

  lemma {:induction false} ScanExists(name: string) returns (a: Scan)
    ensures Scans(name, a)
  {
    if name == "" {
      a := Scan("", false);
    } else {
      var b := ScanExists(name[..|name| - 1]);
      var c := Last(name);
      if IsGap(c) {
        a := b.(gap := true);
      } else if l :| StandsFor(l, c) {
        a := Scan(b.out + (if b.gap && b.out != "" then "-" else "") + [l], false);
      } else {
        a := b;
      }
      assert Reads(b, c, a);
    }
  }

  /** The passes over the name, one after the other, leave exactly what one reading of it puts out. */
  lemma {:induction false} NormalizedIsOnePass(name: string, a: Scan)
    ensures Scans(name, a) ==> Normalized(name) == a.out
    ensures exists b :: Scans(name, b) && b.out == Normalized(name)
  {
    var b := ScanExists(name);
    ScanTrims(name, b);
    if Scans(name, a) { ScanTrims(name, a); }
  }

  lemma {:induction false} ScanTrims(name: string, a: Scan)
    requires Scans(name, a)
    ensures Normalized(name) == a.out
  {
    ScanShows(name, a);
    assert TrimRight(a.out) == a.out;
    assert (a.out + "-")[..|a.out|] == a.out && Last(a.out + "-") == '-';
    assert a.out + "" == a.out;
    hide Scans, Squeezed, TrimLeft, Mapped, Filtered;
  }

  /** The case of a name does not matter. */
  lemma {:induction false} CaseIsIrrelevant(name: string, other: string)
    requires |name| == |other|
    requires forall i | 0 <= i < |name| ::
      name[i] == other[i] || IsUpperOf(name[i], other[i]) || IsUpperOf(other[i], name[i])
    ensures Normalized(name) == Normalized(other)
  {
    assert Mapped(name) == Mapped(other);
  }

  // ---------- words ----------

  /** From i to j the name runs without a separator, and no further either way. */
  predicate RunAt(name: string, i: nat, j: nat) {
    i < j <= |name| && (forall k | i <= k < j :: name[k] !in "-_ .") &&
    (i == 0 || name[i - 1] in "-_ .") && (j == |name| || name[j] in "-_ .")
  }

  lemma {:induction false} SeparatorIs(c: char)
    ensures IsSeparator(c) <==> c in "-_ ."
  {
    assert "-_ ."[0] == '-' && "-_ ."[1] == '_' && "-_ ."[2] == ' ' && "-_ ."[3] == '.';
  }

  ghost predicate IsRun(name: string, part: string) {
    exists i: nat, j: nat | RunAt(name, i, j) :: part == name[i..j]
  }

  /** Runs that begin at k or later are those of the rest, if no run goes across k. */
  lemma {:induction false} RunsShift(s: string, k: nat, i: nat, j: nat)
    requires k <= |s| && (k == 0 || s[k - 1] in "-_ ." || k == |s| || s[k] in "-_ .")
    ensures RunAt(s[k..], i, j) <==> RunAt(s, i + k, j + k)
  {
    var rest := s[k..];
    if i < j <= |rest| {
      if RunAt(s, i + k, j + k) {
        forall m | i <= m < j ensures rest[m] !in "-_ ." {
          assert s[m + k] !in "-_ .";
        }
      }
      if RunAt(rest, i, j) {
        assert rest[i] !in "-_ .";
        forall m | i + k <= m < j + k ensures s[m] !in "-_ ." {
          assert rest[m - k] !in "-_ .";
        }
      }
    }
  }

  lemma {:induction false} RunsOfRest(s: string, k: nat, part: string)
    requires k <= |s| && (k == 0 || s[k - 1] in "-_ ." || k == |s| || s[k] in "-_ .")
    ensures IsRun(s[k..], part) <==> exists i: nat, j: nat | RunAt(s, i, j) && i >= k :: part == s[i..j]
  {
    if IsRun(s[k..], part) {
      var i: nat, j: nat :| RunAt(s[k..], i, j) && part == s[k..][i..j];
      RunsShift(s, k, i, j);
      SliceOfRest(s, k, i, j);
    }
    if i: nat, j: nat :| RunAt(s, i, j) && i >= k && part == s[i..j] {
      RunsShift(s, k, i - k, j - k);
      SliceOfRest(s, k, i - k, j - k);
    }
  }

  lemma {:induction false} SliceOfRest(s: string, k: nat, i: nat, j: nat)
    requires i <= j <= |s| - k
    ensures s[k..][i..j] == s[i + k..j + k]
  {
    forall m | 0 <= m < j - i ensures s[k..][i..j][m] == s[i + k..j + k][m] {
    }
  }

  lemma {:induction false} RunFits(s: string, i: nat, j: nat)
    requires RunAt(s, i, j)
    ensures i < j <= |s|
  {
  }

  /** The fields of a name are its runs. */
  lemma {:induction false} FieldsAreRuns(s: string, part: string)
    ensures part in Fields(s) <==> exists i: nat, j: nat | RunAt(s, i, j) :: part == s[i..j]
    decreases |s|
  {
    forall c ensures IsSeparator(c) <==> c in "-_ ." { SeparatorIs(c); }
    if s != "" {
      var k := if IsSeparator(s[0]) then 1 else WordEnd(s);
      assert k < |s| && !IsSeparator(s[0]) ==> s[k] in "-_ .";
      FieldsAreRuns(s[k..], part);
      RunsOfRest(s, k, part);
      FirstRun(s, k);
      hide RunAt;
    }
  }

  /** Before k there is at most one run, and then it is all there is. */
  lemma {:induction false} FirstRun(s: string, k: nat)
    requires s != "" && k == if IsSeparator(s[0]) then 1 else WordEnd(s)
    ensures forall i: nat, j: nat | RunAt(s, i, j) && i < k :: !IsSeparator(s[0]) && i == 0 && j == k
    ensures !IsSeparator(s[0]) ==> RunAt(s, 0, k)
  {
    forall c ensures IsSeparator(c) <==> c in "-_ ." { SeparatorIs(c); }
    forall i: nat, j: nat | RunAt(s, i, j) && i < k ensures !IsSeparator(s[0]) && i == 0 && j == k {
      assert s[i] !in "-_ ." && (k < |s| ==> s[k] in "-_ .");
    }
  }

  /** From i to j the name reads as the word, in upper or lower case. */
  predicate IsWordAt(name: string, i: nat, j: nat, word: string) {
    i <= j <= |name| && |word| == j - i && forall k | i <= k < j :: SameLetter(name[k], word[k - i])
  }

  /** A name has a word if and only if one of its runs reads as that word. */
  lemma {:induction false} WordsAreRuns(name: string, word: string)
    ensures HasWord(name, word) <==>
      exists i: nat, j: nat | RunAt(name, i, j) :: IsWordAt(name, i, j, word)
  {
    forall a, b ensures FoldChar(a) == FoldChar(b) <==> SameLetter(a, b) { FoldIs(a, b); }
    hide RunAt, Fields, FoldChar, SameLetter;
    if HasWord(name, word) {
      var part :| part in Fields(name) && EqualFold(part, word);
      FieldsAreRuns(name, part);
      var i: nat, j: nat :| RunAt(name, i, j) && part == name[i..j];
      RunFits(name, i, j);
      forall k | i <= k < j ensures SameLetter(name[k], word[k - i]) {
        assert part[k - i] == name[k];
      }
      assert IsWordAt(name, i, j, word);
    }
    if i: nat, j: nat :| RunAt(name, i, j) && IsWordAt(name, i, j, word) {
      RunFits(name, i, j);
      FieldsAreRuns(name, name[i..j]);
      forall k | 0 <= k < |word| ensures FoldChar(name[i..j][k]) == FoldChar(word[k]) {
        assert SameLetter(name[i + k], word[k]);
      }
      assert EqualFold(name[i..j], word);
    }
  }

  // ---------- which name is chosen ----------

  /** Resource i is the first repository. */
  ghost predicate FirstRepositoryAt(resources: seq<Resource>, i: nat) {
    i < |resources| && resources[i].kind == "repository" &&
    forall j | 0 <= j < i :: resources[j].kind != "repository"
  }

  /** The source's own name, or that of the first repository among the resources. */
  ghost predicate IsSourceName(m: Migration, name: string) {
    name != "" &&
    if m.source.repository != "" then name == m.source.repository
    else exists i: nat | FirstRepositoryAt(m.resources, i) :: name == m.resources[i].sourceName
  }

  lemma {:induction false} FirstRepositoryIs(resources: seq<Resource>)
    ensures forall i: nat | FirstRepositoryAt(resources, i) :: FirstRepository(resources) == resources[i].sourceName
    ensures (forall j | 0 <= j < |resources| :: resources[j].kind != "repository") ==> FirstRepository(resources) == ""
    ensures FirstRepository(resources) != "" ==> exists i: nat :: FirstRepositoryAt(resources, i)
  {
    if resources != [] {
      var rest := resources[1..];
      FirstRepositoryIs(rest);
      forall i: nat | FirstRepositoryAt(resources, i)
        ensures FirstRepository(resources) == resources[i].sourceName
      {
        if i > 0 {
          assert resources[0].kind != "repository";
          assert forall j | 0 <= j < i - 1 :: rest[j] == resources[j + 1];
          assert FirstRepositoryAt(rest, i - 1);
        }
      }
      if resources[0].kind == "repository" {
        assert FirstRepositoryAt(resources, 0);
      } else if FirstRepository(rest) != "" {
        var i: nat :| FirstRepositoryAt(rest, i);
        assert forall j | 0 < j <= i + 1 :: resources[j] == rest[j - 1];
        assert FirstRepositoryAt(resources, i + 1);
      }
    }
  }

  /** There is a name if and only if the source has one. A custom name is taken when there is one and generating is not
      asked for; otherwise the source's name is, behind "product" or the business unit unless it has that word already.
      All of them are normalised. */
  lemma {:induction false} NameIsChosen(m: Migration)
    ensures RepositoryName(m).Some? <==> exists name :: IsSourceName(m, name)
    ensures forall name | IsSourceName(m, name) ::
      var unit := if m.source.isProductRepo then "product" else Normalized(m.source.businessUnit);
      RepositoryName(m) == Some(
        if m.target.repository != "" && !m.target.autoGenerateName then Normalized(m.target.repository)
        else if (!m.source.isProductRepo && m.source.businessUnit == "") || HasWord(Normalized(name), unit) then
          Normalized(name)
        else unit + "-" + Normalized(name))
  {
    hide Normalized, HasWord;
    FirstRepositoryIs(m.resources);
    hide FirstRepositoryAt, FirstRepository;
    if RepositoryName(m).Some? {
      assert IsSourceName(m, SourceName(m));
    }
    forall name | IsSourceName(m, name) ensures name == SourceName(m) {
    }
    assert "product" + "-" == "product-";
  }
}
