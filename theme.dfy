/** The theme classifier: a GTK theme name is "dark" when its lower-cased form
    contains one of the words "dark", "night" or "black".

    Characters are Dafny `char`s. Lower-casing follows `std::tolower` in the
    default "C" locale, which changes exactly the letters 'A'..'Z'. */
module ThemeClassifier {
  import opened Wrappers

  /** The words whose presence marks a theme as dark. */
  const DarkWords: seq<string> := ["dark", "night", "black"]

  predicate IsUpper(c: char) {
    'A' <= c <= 'Z'
  }

  /** `std::tolower` on one character in the "C" locale. */
  function LowerChar(c: char): (r: char)
    ensures !IsUpper(r)
    ensures IsUpper(c) ==> r as int == c as int - 'A' as int + 'a' as int
    ensures r != c ==> IsUpper(c)
  {
    if IsUpper(c) then (c as int - 'A' as int + 'a' as int) as char else c
  }

  /** The lower-cased copy of a whole name, character by character. */
  function Lower(s: string): (r: string)
    ensures |r| == |s|
    ensures forall i :: 0 <= i < |s| ==> r[i] == LowerChar(s[i])
  {
    if s == [] then [] else [LowerChar(s[0])] + Lower(s[1..])
  }

  /** `sub` occurs in `s` starting at position `i`. */
  predicate OccursAt(s: string, sub: string, i: nat) {
    i + |sub| <= |s| && s[i..i + |sub|] == sub
  }

  /** `sub` occurs somewhere in `s` as a contiguous substring. */
  predicate Contains(s: string, sub: string) {
    exists i: nat | i <= |s| :: OccursAt(s, sub, i)
  }

  /** `std::string::find`: the first position at or after `from` where `sub`
      occurs, or `None` (the source's `npos`). */
  function FindFrom(s: string, sub: string, from: nat): (r: Option<nat>)
    requires from <= |s|
    ensures r.Some? ==> from <= r.value && OccursAt(s, sub, r.value)
    ensures r.Some? ==> forall j: nat :: from <= j < r.value ==> !OccursAt(s, sub, j)
    ensures r.None? ==> forall j: nat :: from <= j ==> !OccursAt(s, sub, j)
    decreases |s| - from
  {
    if OccursAt(s, sub, from) then Some(from)
    else if from + |sub| >= |s| then None
    else FindFrom(s, sub, from + 1)
  }

  function Find(s: string, sub: string): (r: Option<nat>)
    ensures r.Some? <==> Contains(s, sub)
    ensures r.Some? ==> OccursAt(s, sub, r.value) && forall j: nat :: j < r.value ==> !OccursAt(s, sub, j)
  {
    FindFrom(s, sub, 0)
  }

  /** The classification the source computes, stated on the lower-cased name. */
  predicate LooksDark(themeName: string) {
    var lower := Lower(themeName);
    Contains(lower, "dark") || Contains(lower, "night") || Contains(lower, "black")
  }

  /** The source's `isDarkTheme`: copy the name, lower-case the copy in place,
      then search it for each of the three words. */
  method IsDarkTheme(themeName: string) returns (dark: bool)
    ensures dark == LooksDark(themeName)
    ensures dark <==> exists w :: w in DarkWords && Contains(Lower(themeName), w)
  {
    var lowerTheme := new char[|themeName|](i requires 0 <= i < |themeName| => themeName[i]);
    for i := 0 to lowerTheme.Length
      invariant forall k :: 0 <= k < i ==> lowerTheme[k] == LowerChar(themeName[k])
      invariant forall k :: i <= k < lowerTheme.Length ==> lowerTheme[k] == themeName[k]
    {
      lowerTheme[i] := LowerChar(lowerTheme[i]);
    }
    var lowered := lowerTheme[..];
    assert lowered == Lower(themeName);
    dark := Find(lowered, "dark").Some? || Find(lowered, "night").Some? || Find(lowered, "black").Some?;
    assert DarkWords[0] == "dark" && DarkWords[1] == "night" && DarkWords[2] == "black";
  }

  // ---------------------------------------------------------------------------
  // Properties of the classifier
  // ---------------------------------------------------------------------------

  /** Two names that differ at most in the case of ASCII letters. */
  predicate SameIgnoringCase(a: string, b: string) {
    |a| == |b| && forall i :: 0 <= i < |a| ==> LowerChar(a[i]) == LowerChar(b[i])
  }

  /** Lower-casing leaves an already lower-cased name alone. */
  lemma LowerIdempotent(s: string)
    ensures Lower(Lower(s)) == Lower(s)
  {
  }

  /** Lower-casing distributes over concatenation. */
  lemma LowerConcat(a: string, b: string)
    ensures Lower(a + b) == Lower(a) + Lower(b)
  {
  }

  /** The classification does not depend on letter case. */
  lemma CaseInsensitive(a: string, b: string)
    requires SameIgnoringCase(a, b)
    ensures LooksDark(a) == LooksDark(b)
  {
    assert Lower(a) == Lower(b);
  }

  /** In particular, classifying the lower-cased name gives the same answer. */
  lemma LowerCasedNameSameClass(themeName: string)
    ensures LooksDark(Lower(themeName)) == LooksDark(themeName)
  {
    LowerIdempotent(themeName);
  }

  /** An occurrence survives adding text on either side. */
  lemma ContainsInContext(p: string, s: string, q: string, sub: string)
    requires Contains(s, sub)
    ensures Contains(p + s + q, sub)
  {
    var i: nat :| i <= |s| && OccursAt(s, sub, i);
    var t := p + s + q;
    assert |t| == |p| + |s| + |q|;
    assert t[|p| + i..|p| + i + |sub|] == s[i..i + |sub|];
    assert OccursAt(t, sub, |p| + i);
  }

  /** A word cannot occur in a name that lacks one of its letters. */
  lemma MissingLetter(s: string, sub: string, k: nat)
    requires k < |sub|
    requires forall i :: 0 <= i < |s| ==> s[i] != sub[k]
    ensures !Contains(s, sub)
  {
    forall i: nat | i <= |s| ensures !OccursAt(s, sub, i) {
      if i + |sub| <= |s| {
        assert s[i..i + |sub|][k] == s[i + k];
      }
    }
  }

  /** A dark theme name stays dark whatever is put before or after it
      (for instance "Adwaita-dark" -> "My-Adwaita-dark-v2"). */
  lemma DarkInContext(p: string, themeName: string, q: string)
    requires LooksDark(themeName)
    ensures LooksDark(p + themeName + q)
  {
    LowerConcat(p, themeName);
    LowerConcat(p + themeName, q);
    var lp, ln, lq := Lower(p), Lower(themeName), Lower(q);
    assert Lower(p + themeName + q) == lp + ln + lq;
    if Contains(ln, "dark") {
      ContainsInContext(lp, ln, lq, "dark");
    } else if Contains(ln, "night") {
      ContainsInContext(lp, ln, lq, "night");
    } else {
      ContainsInContext(lp, ln, lq, "black");
    }
  }

  /** "Adwaita-dark" is classified dark. */
  lemma AdwaitaDarkIsDark(n: string)
    requires n == "Adwaita-dark"
    ensures LooksDark(n)
  {
    var l := Lower(n);
    assert l[8] == 'd' && l[9] == 'a' && l[10] == 'r' && l[11] == 'k';
    assert l[8..12] == "dark";
    assert OccursAt(l, "dark", 8);
  }

  /** "Adwaita" is classified light: its lower-cased form has no 'k' (a letter
      of "dark" and of "black") and no 'n' (a letter of "night"). */
  lemma AdwaitaIsLight(n: string)
    requires n == "Adwaita"
    ensures !LooksDark(n)
  {
    var l := Lower(n);
    forall i | 0 <= i < |l| ensures l[i] != 'k' && l[i] != 'n' {
      assert l[i] == LowerChar(n[i]);
    }
    MissingLetter(l, "dark", 3);
    MissingLetter(l, "night", 0);
    MissingLetter(l, "black", 4);
  }

  /** Upper-case forms of the words are recognised too. */
  lemma UpperCaseWordsAreDark(n1: string, n2: string)
    requires n1 == "NIGHTFOX" && n2 == "Yaru-BLACK"
    ensures LooksDark(n1) && LooksDark(n2)
  {
    var l1, l2 := Lower(n1), Lower(n2);
    assert l1[0] == 'n' && l1[1] == 'i' && l1[2] == 'g' && l1[3] == 'h' && l1[4] == 't';
    assert l1[0..5] == "night";
    assert OccursAt(l1, "night", 0);
    assert l2[5] == 'b' && l2[6] == 'l' && l2[7] == 'a' && l2[8] == 'c' && l2[9] == 'k';
    assert l2[5..10] == "black";
    assert OccursAt(l2, "black", 5);
  }
}
