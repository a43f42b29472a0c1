/** `safe_slug` of `docs_mcp/server_helpers.py`, on the ASCII text that the Unicode
    normalisation before it leaves. */
module SafeSlug {
  import PyText

  predicate IsAlnum(c: char) {
    'a' <= c <= 'z' || '0' <= c <= '9'
  }

  lemma AlnumIff(c: char)
    ensures IsAlnum(c) <==> c in "abcdefghijklmnopqrstuvwxyz" || c in "0123456789"
  {
  }

  predicate Allowed(c: char) {
    IsAlnum(c) || c == '-'
  }

  predicate IsDash(c: char) {
    c == '-'
  }

  /** Each maximal run of characters in the class becomes one dash; `inRun` says the
      character before was in it. */
  function Squash(s: string, run: char -> bool, inRun: bool): (r: string)
    decreases |s|
  {
    if s == "" then ""
    else if run(s[0]) then (if inRun then "" else "-") + Squash(s[1..], run, true)
    else [s[0]] + Squash(s[1..], run, false)
  }

  function Slug(text: string, maxLength: int): (r: string) {
    var replaced := Squash(PyText.Lower(text), c => !Allowed(c), false);
    var collapsed := PyText.Trim(Squash(replaced, c => IsDash(c), false), c => IsDash(c));
    if maxLength > 0 then
      PyText.TrimRight(if |collapsed| > maxLength then collapsed[..maxLength] else collapsed, c => IsDash(c))
    else collapsed
  }

  // ----- The normal form ---------------------------------------------------------------

  predicate SingleDashes(s: string) {
    forall i | 0 <= i < |s| - 1 :: !(s[i] == '-' && s[i + 1] == '-')
  }

  predicate Normal(s: string) {
    && (forall i | 0 <= i < |s| :: Allowed(s[i]))
    && SingleDashes(s)
    && (s != "" ==> s[0] != '-' && s[|s| - 1] != '-')
  }

  /** The letters and digits, in order. */
  function Alnums(s: string): (r: string) {
    if s == "" then "" else (if IsAlnum(s[0]) then [s[0]] else "") + Alnums(s[1..])
  }

  lemma {:induction false} SquashForeign(s: string, inRun: bool)
    ensures var r := Squash(s, c => !Allowed(c), inRun);
      Alnums(r) == Alnums(s) && forall i | 0 <= i < |r| :: Allowed(r[i])
    decreases |s|
  {
    if s != "" {
      SquashForeign(s[1..], !Allowed(s[0]));
      var r := Squash(s, c => !Allowed(c), inRun);
      var rest := Squash(s[1..], c => !Allowed(c), !Allowed(s[0]));
      if Allowed(s[0]) {
        assert r == [s[0]] + rest && r[1..] == rest;
      } else if !inRun {
        assert r == ['-'] + rest && r[1..] == rest;
      } else {
        assert r == rest;
      }
    }
  }

  lemma {:induction false} SquashDashes(s: string, inRun: bool)
    requires forall i | 0 <= i < |s| :: Allowed(s[i])
    ensures var r := Squash(s, c => IsDash(c), inRun);
      && Alnums(r) == Alnums(s)
      && (forall i | 0 <= i < |r| :: Allowed(r[i]))
      && SingleDashes(r)
      && (inRun && r != "" ==> r[0] != '-')
    decreases |s|
  {
    if s != "" {
      SquashDashes(s[1..], IsDash(s[0]));
      var r := Squash(s, c => IsDash(c), inRun);
      var rest := Squash(s[1..], c => IsDash(c), IsDash(s[0]));
      if !IsDash(s[0]) {
        assert r == [s[0]] + rest && r[1..] == rest;
      } else if !inRun {
        assert r == ['-'] + rest && r[1..] == rest;
      } else {
        assert r == rest;
      }
    }
  }

  lemma {:induction false} TrimLeftDashes(s: string)
    requires (forall i | 0 <= i < |s| :: Allowed(s[i])) && SingleDashes(s)
    ensures var r := PyText.TrimLeft(s, c => IsDash(c));
      && Alnums(r) == Alnums(s)
      && (forall i | 0 <= i < |r| :: Allowed(r[i])) && SingleDashes(r) && (r != "" ==> r[0] != '-')
    decreases |s|
  {
    if s != "" && s[0] == '-' {
      TrimLeftDashes(s[1..]);
    }
  }

  lemma {:induction false} AlnumsSnoc(s: string, c: char)
    ensures Alnums(s + [c]) == Alnums(s) + if IsAlnum(c) then [c] else ""
  {
    if s != "" {
      assert (s + [c])[1..] == s[1..] + [c];
      AlnumsSnoc(s[1..], c);
    }
  }

  /** Trimming on the right removes the trailing dashes: with single dashes, at most one. */
  lemma {:induction false} TrimRightDashes(s: string)
    ensures var r := PyText.TrimRight(s, c => IsDash(c));
      && r <= s && Alnums(r) == Alnums(s) && (r != "" ==> r[|r| - 1] != '-')
      && (forall i | |r| <= i < |s| :: s[i] == '-')
    decreases |s|
  {
    if s != "" && s[|s| - 1] == '-' {
      TrimRightDashes(s[..|s| - 1]);
      AlnumsSnoc(s[..|s| - 1], '-');
      assert s == s[..|s| - 1] + ['-'];
    }
  }

  lemma PrefixStaysNormal(r: string, s: string)
    requires r <= s && (r != "" ==> r[|r| - 1] != '-')
    requires (forall i | 0 <= i < |s| :: Allowed(s[i])) && SingleDashes(s) && (s != "" ==> s[0] != '-')
    ensures Normal(r)
  {
    assert forall i | 0 <= i < |r| :: r[i] == s[i];
  }

  /** Without a cap: the normal form, with every letter and digit of the text, in order. */
  lemma UncappedIsNormal(text: string)
    ensures Normal(Slug(text, 0)) && Alnums(Slug(text, 0)) == Alnums(PyText.Lower(text))
  {
    var replaced := Squash(PyText.Lower(text), c => !Allowed(c), false);
    SquashForeign(PyText.Lower(text), false);
    var squashed := Squash(replaced, c => IsDash(c), false);
    SquashDashes(replaced, false);
    var left := PyText.TrimLeft(squashed, c => IsDash(c));
    TrimLeftDashes(squashed);
    TrimRightDashes(left);
    PrefixStaysNormal(PyText.TrimRight(left, c => IsDash(c)), left);
  }

  /** With a cap: still the normal form, and the longest prefix of the uncapped slug
      that fits, less the one dash it may end in. */
  lemma CappedIsNormal(text: string, maxLength: int)
    requires maxLength > 0
    ensures var (r, whole) := (Slug(text, maxLength), Slug(text, 0));
      && Normal(r) && |r| <= maxLength && r <= whole
      && (|whole| <= maxLength ==> r == whole)
      && (|whole| > maxLength ==> |r| == if whole[maxLength - 1] == '-' then maxLength - 1 else maxLength)
  {
    UncappedIsNormal(text);
    var whole := Slug(text, 0);
    var cut := if |whole| > maxLength then whole[..maxLength] else whole;
    var r := PyText.TrimRight(cut, c => IsDash(c));
    TrimRightDashes(cut);
    assert r <= whole;
    PrefixStaysNormal(r, whole);
    if |whole| > maxLength && whole[maxLength - 1] == '-' && |r| < maxLength - 1 {
      assert cut[maxLength - 2] == '-';
    }
  }

  // ----- A slug, read off the words of the text --------------------------------------------

  /** How many letters and digits the text begins with. */
  function WordLength(s: string): (n: nat)
    ensures n <= |s|
    ensures forall i | 0 <= i < n :: IsAlnum(s[i])
    ensures n < |s| ==> !IsAlnum(s[n])
  {
    if s == "" || !IsAlnum(s[0]) then 0 else 1 + WordLength(s[1..])
  }

  /** The maximal runs of letters and digits, in order. */
  function Words(s: string): (r: seq<string>)
    ensures forall w | w in r :: w != "" && forall i | 0 <= i < |w| :: IsAlnum(w[i])
    decreases |s|
  {
    if s == "" then []
    else if !IsAlnum(s[0]) then Words(s[1..])
    else [s[..WordLength(s)]] + Words(s[WordLength(s)..])
  }

  function Gaps(s: string, inRun: bool): (r: string) {
    Squash(s, c => !IsAlnum(c), inRun)
  }

  /** Replacing foreign runs and then collapsing dashes turns every run of anything else
      than letters and digits into one dash. */
  lemma {:induction false} TwoPassesAreOne(s: string, foreign: bool, dash: bool)
    requires foreign ==> dash
    ensures Squash(Squash(s, c => !Allowed(c), foreign), c => IsDash(c), dash) == Gaps(s, dash)
    decreases |s|
  {
    if s != "" {
      var rest := Squash(s[1..], c => !Allowed(c), !Allowed(s[0]));
      TwoPassesAreOne(s[1..], !Allowed(s[0]), !IsAlnum(s[0]));
      var r := Squash(s, c => !Allowed(c), foreign);
      if Allowed(s[0]) {
        assert r == [s[0]] + rest && r[1..] == rest;
      } else if !foreign {
        assert r == ['-'] + rest && r[1..] == rest;
      } else {
        assert r == rest;
      }
    }
  }

  lemma GapsStep(s: string)
    requires s != "" && !IsAlnum(s[0])
    ensures Gaps(s, true) == Gaps(s[1..], true) && Gaps(s, false) == "-" + Gaps(s[1..], true)
    ensures Words(s) == Words(s[1..])
  {
  }

  lemma GapsLetter(s: string, dash: bool)
    requires s != "" && IsAlnum(s[0])
    ensures Gaps(s, dash) == [s[0]] + Gaps(s[1..], false)
  {
  }

  lemma {:induction false} GapsWord(w: string, rest: string)
    requires forall i | 0 <= i < |w| :: IsAlnum(w[i])
    ensures Gaps(w + rest, true) == if w == "" then Gaps(rest, true) else w + Gaps(rest, false)
    ensures Gaps(w + rest, false) == w + Gaps(rest, false)
    decreases |w|
  {
    if w == "" {
      assert w + rest == rest;
    } else {
      assert (w + rest)[1..] == w[1..] + rest;
      GapsLetter(w + rest, true);
      GapsLetter(w + rest, false);
      hide Gaps, IsAlnum;
      GapsWord(w[1..], rest);
      assert [w[0]] + (w[1..] + Gaps(rest, false)) == w + Gaps(rest, false);
    }
  }

  lemma {:induction false} GapsAreWords(s: string)
    ensures Gaps(s, true) ==
              PyText.Join("-", Words(s)) + if Words(s) != [] && !IsAlnum(s[|s| - 1]) then "-" else ""
    decreases |s|
  {
    if s != "" {
      if !IsAlnum(s[0]) {
        GapsStep(s);
        GapsAreWords(s[1..]);
      } else {
        var w, rest := s[..WordLength(s)], s[WordLength(s)..];
        assert s == w + rest && Words(s) == [w] + Words(rest);
        if rest != "" {
          GapsStep(rest);
          GapsAreWords(rest[1..]);
        }
        GapsFirstWord(s, w, rest);
      }
    }
  }

  lemma GapsFirstWord(s: string, w: string, rest: string)
    requires s == w + rest && w != "" && (forall i | 0 <= i < |w| :: IsAlnum(w[i])) && Words(s) == [w] + Words(rest)
    requires rest != "" ==> !IsAlnum(rest[0]) && Words(rest) == Words(rest[1..])
    requires rest != "" ==>
               && Gaps(rest, false) == "-" + Gaps(rest[1..], true)
               && Gaps(rest[1..], true) ==
                    PyText.Join("-", Words(rest)) + if Words(rest) != [] && !IsAlnum(rest[|rest| - 1]) then "-" else ""
    ensures Gaps(s, true) == PyText.Join("-", Words(s)) + if !IsAlnum(s[|s| - 1]) then "-" else ""
  {
    GapsWord(w, rest);
    AfterWord(w, Words(rest), rest);
    NothingLeft();
    JoinNone();
    hide Gaps, PyText.Join, Words, WordLength, Squash;
    if rest == "" {
      assert w + "" == w;
    } else {
      assert s[|s| - 1] == rest[|rest| - 1];
      if Words(rest) == [] {
        NoWords(rest);
      }
      hide IsAlnum;
      var j := PyText.Join("-", Words(rest));
      Glued(w, j, if Words(rest) != [] && !IsAlnum(rest[|rest| - 1]) then "-" else "");
      Glued(w, "", "");
    }
  }

  lemma Glued(w: string, j: string, t: string)
    ensures w + ("-" + (j + t)) == w + "-" + j + t
    ensures j == "" && t == "" ==> w + "-" + j + t == w + "-"
  {
  }

  lemma JoinNone()
    ensures PyText.Join("-", []) == ""
  {
  }

  lemma {:induction false} NoWords(s: string)
    requires Words(s) == [] && s != ""
    ensures !IsAlnum(s[|s| - 1])
    decreases |s|
  {
    if |s| > 1 && !IsAlnum(s[0]) {
      NoWords(s[1..]);
    }
  }

  lemma NothingLeft()
    ensures Gaps("", false) == "" && Words("") == []
  {
  }

  lemma AfterWord(w: string, words: seq<string>, rest: string)
    ensures PyText.Join("-", [w] + words) == if words == [] then w else w + "-" + PyText.Join("-", words)
  {
    assert ([w] + words)[1..] == words;
  }

  lemma {:induction false} JoinedWords(words: seq<string>)
    requires words != [] && forall w | w in words :: w != "" && forall i | 0 <= i < |w| :: IsAlnum(w[i])
    ensures var r := PyText.Join("-", words); r != "" && IsAlnum(r[0]) && IsAlnum(r[|r| - 1])
    decreases |words|
  {
    assert words[0] in words;
    if |words| > 1 {
      JoinedWords(words[1..]);
    }
  }

  lemma TrimmedTail(core: string, tail: string)
    requires core != "" ==> core[0] != '-' && core[|core| - 1] != '-'
    requires tail == "" || tail == "-"
    ensures PyText.Trim(core + tail, c => IsDash(c)) == core
  {
    if core == "" {
      assert core + tail == tail && "-"[1..] == "";
    } else {
      assert PyText.TrimLeft(core + tail, c => IsDash(c)) == core + tail;
      if tail == "-" {
        assert (core + tail)[..|core + tail| - 1] == core && PyText.TrimRight(core, c => IsDash(c)) == core;
      } else {
        assert core + tail == core;
      }
    }
  }

  lemma TrimmedLead(s: string)
    ensures PyText.Trim("-" + s, c => IsDash(c)) == PyText.Trim(s, c => IsDash(c))
  {
    assert ("-" + s)[1..] == s;
  }

  /** The words with their dashes, and perhaps one more at either end. */
  lemma GapsAround(s: string) returns (lead: string, tail: string)
    ensures (lead == "" || lead == "-") && (tail == "" || tail == "-")
    ensures Gaps(s, false) == lead + (PyText.Join("-", Words(s)) + tail)
  {
    GapsAreWords(s);
    var core := PyText.Join("-", Words(s));
    lead, tail := "", if Words(s) != [] && !IsAlnum(s[|s| - 1]) then "-" else "";
    if s == "" {
      NothingLeft();
      JoinNone();
    } else if !IsAlnum(s[0]) {
      lead := "-";
      GapsStep(s);
      hide *;
    } else {
      GapsLetter(s, true);
      GapsLetter(s, false);
      hide *;
      assert lead + (core + tail) == core + tail;
    }
  }

  lemma JoinedEnds(s: string)
    ensures var core := PyText.Join("-", Words(s)); core != "" ==> core[0] != '-' && core[|core| - 1] != '-'
  {
    if Words(s) == [] {
      JoinNone();
    } else {
      JoinedWords(Words(s));
    }
  }

  lemma SlugIsTrimmed(text: string)
    ensures Slug(text, 0) == PyText.Trim(Gaps(PyText.Lower(text), false), c => IsDash(c))
  {
    TwoPassesAreOne(PyText.Lower(text), false, false);
  }

  /** The slug, uncapped: the words of the lower-cased text with one dash between each two. */
  lemma SlugIsWords(text: string)
    ensures Slug(text, 0) == PyText.Join("-", Words(PyText.Lower(text)))
  {
    var s := PyText.Lower(text);
    SlugIsTrimmed(text);
    JoinedEnds(s);
    var lead, tail := GapsAround(s);
    hide *;
    var core := PyText.Join("-", Words(s));
    TrimmedTail(core, tail);
    TrimmedLead(core + tail);
    assert lead == "" ==> lead + (core + tail) == core + tail;
  }

  // ----- A slug is its own slug -----------------------------------------------------------

  lemma {:induction false} SquashNothing(s: string, run: char -> bool, inRun: bool)
    requires forall i | 0 <= i < |s| :: !run(s[i])
    ensures Squash(s, run, inRun) == s
    decreases |s|
  {
    if s != "" {
      SquashNothing(s[1..], run, false);
    }
  }

  lemma {:induction false} SquashSingle(s: string, inRun: bool)
    requires SingleDashes(s) && (inRun && s != "" ==> s[0] != '-')
    ensures Squash(s, c => IsDash(c), inRun) == s
    decreases |s|
  {
    if s != "" {
      SquashSingle(s[1..], s[0] == '-');
    }
  }

  /** The texts that are their own slug are those in normal form within the cap. */
  lemma FixedIffNormal(s: string, maxLength: int)
    ensures Slug(s, maxLength) == s <==> Normal(s) && (maxLength > 0 ==> |s| <= maxLength)
  {
    if Normal(s) {
      assert PyText.Lower(s) == s;
      SquashNothing(s, c => !Allowed(c), false);
      SquashSingle(s, false);
      assert Slug(s, 0) == s;
    }
    UncappedIsNormal(s);
    if maxLength > 0 {
      CappedIsNormal(s, maxLength);
    } else {
      assert Slug(s, maxLength) == Slug(s, 0);
    }
  }

  /** So slugging is idempotent, wherever the cap cuts. */
  lemma SlugIsIdempotent(text: string, maxLength: int)
    ensures Slug(Slug(text, maxLength), maxLength) == Slug(text, maxLength)
  {
    UncappedIsNormal(text);
    if maxLength > 0 {
      CappedIsNormal(text, maxLength);
    } else {
      assert Slug(text, maxLength) == Slug(text, 0);
    }
    FixedIffNormal(Slug(text, maxLength), maxLength);
  }
}
