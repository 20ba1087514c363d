/** The matching-key normaliser of the enrichment script
    (scripts/dataset/enrich_spotify_with_billboard.py, `normalize`).

    The source chains six string rewrites; each is a function here:
      Lower, then Strip                 -- str(text).lower().strip()
      Fold                              -- NFKD, then drop non-ASCII
      CollapseRuns(_, true, false)      -- re.sub(r"[\s&]+", " ", _)
      KeepKeyChars                      -- re.sub(r"[^a-z0-9 ]", "", _)
      DropMarkers                       -- re.sub(r"\b(feat|ft|featuring)\b", "", _)
      Strip(CollapseRuns(_, false, false)) -- re.sub(r"\s+", " ", _).strip()
    The main results: a key is Canonical (only [a-z0-9 ], single interior
    spaces), its words are those of the cleaned text minus the featuring
    markers, and normalising is idempotent and case-insensitive. */
module Normalizer {
  import opened Text

  // ---------------------------------------------------------------- lower()

  /** Upper-case letters that lower() maps to another character, among the
      characters whose ASCII folding is modelled (ASCII and Latin-1). */
  predicate IsUpper(c: char)
  {
    ('A' <= c <= 'Z') || (0xC0 <= c as int <= 0xDE && c as int != 0xD7)
  }

  function LowerChar(c: char): (r: char)
    ensures !IsUpper(r)
    ensures !IsUpper(c) ==> r == c
    ensures IsUpper(c) ==> r as int == c as int + 32
  {
    if IsUpper(c) then (c as int + 32) as char else c
  }

  /** str.lower(), character by character. */
  function Lower(s: string): (r: string)
    ensures |r| == |s|
    ensures forall i :: 0 <= i < |s| ==> r[i] == LowerChar(s[i])
  {
    if s == [] then [] else [LowerChar(s[0])] + Lower(s[1..])
  }

  /** Lower-casing twice is lower-casing once. */
  lemma {:induction false} LowerIdempotent(s: string)
    ensures Lower(Lower(s)) == Lower(s)
  {
    if s != [] {
      LowerIdempotent(s[1..]);
      assert Lower(s)[1..] == Lower(s[1..]);
    }
  }

  // ---------------------------------------------------------------- strip()

  /** Removes the leading white space: what is left is a suffix of `s`, it
      does not start with white space, and everything removed was white space. */
  function TrimStart(s: string): (r: string)
    ensures |r| <= |s| && r == s[|s| - |r|..]
    ensures r != [] ==> !IsSpace(r[0])
    ensures forall i :: 0 <= i < |s| - |r| ==> IsSpace(s[i])
  {
    if s != [] && IsSpace(s[0]) then
      var r := TrimStart(s[1..]);
      assert s[1..][|s| - 1 - |r|..] == s[|s| - |r|..];
      assert forall i :: 1 <= i < |s| - |r| ==> s[i] == s[1..][i - 1];
      r
    else s
  }

  /** Removes the trailing white space: what is left is a prefix of `s`, it
      does not end with white space, and everything removed was white space. */
  function TrimEnd(s: string): (r: string)
    ensures |r| <= |s| && r == s[..|r|]
    ensures r != [] ==> !IsSpace(r[|r| - 1])
    ensures forall i :: |r| <= i < |s| ==> IsSpace(s[i])
  {
    if s != [] && IsSpace(s[|s| - 1]) then
      var r := TrimEnd(s[..|s| - 1]);
      assert s[..|s| - 1][..|r|] == s[..|r|];
      assert forall i :: |r| <= i < |s| - 1 ==> s[i] == s[..|s| - 1][i];
      r
    else s
  }

  /** Everything of `s` before `a` and from `b` on is white space. */
  predicate SpaceOutside(s: string, a: int, b: int)
    requires 0 <= a <= b <= |s|
  {
    (forall i :: 0 <= i < a ==> IsSpace(s[i])) && (forall i :: b <= i < |s| ==> IsSpace(s[i]))
  }

  /** str.strip(): what is left has no white space at either end, and it
      keeps the character set and the single spacing of `s`. StripPiece
      shows that only the white space at the two ends is removed. */
  function Strip(s: string): (r: string)
    ensures r != [] ==> !IsSpace(r[0]) && !IsSpace(r[|r| - 1])
    ensures AllKeyChars(s) ==> AllKeyChars(r)
    ensures NoDoubleSpace(s) ==> NoDoubleSpace(r)
  {
    var t := TrimStart(s);
    SuffixKeepsShape(s, |s| - |t|);
    var r := TrimEnd(t);
    PrefixKeepsShape(t, |r|);
    r
  }

  /** str.strip() removes the white space at both ends and nothing else:
      the result is the piece s[a..b] of `s`, with only white space before
      `a` and from `b` on. */
  lemma StripPiece(s: string)
    ensures exists a, b :: 0 <= a <= b <= |s| && Strip(s) == s[a..b] && SpaceOutside(s, a, b)
  {
    TrimmedPiece(s, TrimStart(s), Strip(s));
  }

  /** A text with no white space at either end is its own strip. */
  lemma StripKeepsTrimmed(s: string)
    requires s == [] || (!IsSpace(s[0]) && !IsSpace(s[|s| - 1]))
    ensures Strip(s) == s
  {
    assert TrimStart(s) == s;
    assert TrimEnd(s) == s;
  }

  /** Trimming the front and then the back leaves a piece of `s` with only
      white space around it. */
  lemma TrimmedPiece(s: string, t: string, r: string)
    requires |t| <= |s| && t == s[|s| - |t|..]
    requires forall i :: 0 <= i < |s| - |t| ==> IsSpace(s[i])
    requires |r| <= |t| && r == t[..|r|]
    requires forall i :: |r| <= i < |t| ==> IsSpace(t[i])
    ensures exists a, b :: 0 <= a <= b <= |s| && r == s[a..b] && SpaceOutside(s, a, b)
  {
    var a := |s| - |t|;
    var b := a + |r|;
    assert r == s[a..b];
    forall i | b <= i < |s| ensures IsSpace(s[i]) {
      assert s[i] == t[i - a];
    }
  }

  /** A suffix of a text keeps its character set and its single spacing. */
  lemma SuffixKeepsShape(s: string, a: nat)
    requires a <= |s|
    ensures AllKeyChars(s) ==> AllKeyChars(s[a..])
    ensures NoDoubleSpace(s) ==> NoDoubleSpace(s[a..])
  {
    var r := s[a..];
    assert forall k :: 0 <= k < |r| ==> r[k] == s[a + k];
  }

  /** A prefix of a text keeps its character set and its single spacing. */
  lemma PrefixKeepsShape(s: string, b: nat)
    requires b <= |s|
    ensures AllKeyChars(s) ==> AllKeyChars(s[..b])
    ensures NoDoubleSpace(s) ==> NoDoubleSpace(s[..b])
  {
    var r := s[..b];
    assert forall k :: 0 <= k < |r| ==> r[k] == s[k];
  }

  // ------------------------------------------ NFKD + encode("ascii", "ignore")

  predicate IsAscii(c: char)
  {
    c as int < 0x80
  }

  /** The ASCII part of the NFKD decomposition of one character, which is what
      survives encode("ascii", "ignore"). ASCII is kept, Latin-1 letters lose
      their accents, compatibility characters of Latin-1 and the Unicode
      spaces decompose as the Unicode Character Database says; characters
      with no ASCII part yield nothing. */
  function FoldChar(c: char): (r: string)
    ensures forall i :: 0 <= i < |r| ==> IsAscii(r[i])
    ensures IsAscii(c) ==> r == [c]
  {
    var n := c as int;
    if n < 0x80 then [c]
    else if n == 0xA0 || n == 0xA8 || n == 0xAF || n == 0xB4 || n == 0xB8 then " "
    else if n == 0xAA then "a"
    else if n == 0xB2 then "2"
    else if n == 0xB3 then "3"
    else if n == 0xB9 then "1"
    else if n == 0xBA then "o"
    else if n == 0xBC then "14"
    else if n == 0xBD then "12"
    else if n == 0xBE then "34"
    else if 0xC0 <= n <= 0xC5 then "A"
    else if n == 0xC7 then "C"
    else if 0xC8 <= n <= 0xCB then "E"
    else if 0xCC <= n <= 0xCF then "I"
    else if n == 0xD1 then "N"
    else if 0xD2 <= n <= 0xD6 then "O"
    else if 0xD9 <= n <= 0xDC then "U"
    else if n == 0xDD then "Y"
    else if 0xE0 <= n <= 0xE5 then "a"
    else if n == 0xE7 then "c"
    else if 0xE8 <= n <= 0xEB then "e"
    else if 0xEC <= n <= 0xEF then "i"
    else if n == 0xF1 then "n"
    else if 0xF2 <= n <= 0xF6 then "o"
    else if 0xF9 <= n <= 0xFC then "u"
    else if n == 0xFD || n == 0xFF then "y"
    else if (0x2000 <= n <= 0x200A) || n == 0x202F || n == 0x205F || n == 0x3000 then " "
    else []
  }

  /** Folds a whole string to ASCII; ASCII text is left alone. */
  function Fold(s: string): (r: string)
    ensures forall i :: 0 <= i < |r| ==> IsAscii(r[i])
    ensures (forall i :: 0 <= i < |s| ==> IsAscii(s[i])) ==> r == s
  {
    if s == [] then [] else FoldChar(s[0]) + Fold(s[1..])
  }

  /** The fold works character by character: one character becomes the
      ASCII part of its decomposition ... */
  lemma FoldSingle(c: char)
    ensures Fold([c]) == FoldChar(c)
  {
    assert [c][1..] == [];
  }

  /** ... and the fold of two texts read in turn is the fold of the first
      followed by the fold of the second, so every character's ASCII part
      lands in its place. */
  lemma {:induction false} FoldAppend(a: string, b: string)
    ensures Fold(a + b) == Fold(a) + Fold(b)
  {
    if a == [] {
      assert a + b == b;
    } else {
      assert (a + b)[0] == a[0] && (a + b)[1..] == a[1..] + b;
      FoldAppend(a[1..], b);
    }
  }

  // ------------------------------------------------ re.sub(r"[\s&]+", " ", _)

  /** What the character class `[\s&]` (amp) or `\s` (not amp) matches. */
  predicate IsSeparator(c: char, amp: bool)
  {
    IsSpace(c) || (amp && c == '&')
  }

  /** Replaces every maximal run of separators by a single space; `inRun`
      says that the text before `s` ended inside such a run. The result
      has no separator other than a plain space, never two in a row, and
      every other character comes from `s`. CollapseEndRuns shows that a
      run at either end of `s` still leaves its space there. */
  function CollapseRuns(s: string, amp: bool, inRun: bool): (r: string)
    ensures |r| <= |s|
    ensures AllKeyChars(s) ==> AllKeyChars(r)
    ensures forall i :: 0 <= i < |r| && IsSeparator(r[i], amp) ==> r[i] == ' '
    ensures forall i :: 0 <= i < |r| - 1 ==> !(IsSeparator(r[i], amp) && IsSeparator(r[i + 1], amp))
    ensures inRun && r != [] ==> !IsSeparator(r[0], amp)
  {
    if s == [] then []
    else if IsSeparator(s[0], amp) then
      (if inRun then [] else [' ']) + CollapseRuns(s[1..], amp, true)
    else
      [s[0]] + CollapseRuns(s[1..], amp, false)
  }

  /** A run of separators at either end of the text still becomes a space
      there (at the start, unless the text before already ended in a run). */
  lemma {:induction false} CollapseEndRuns(s: string, amp: bool, inRun: bool)
    ensures var r := CollapseRuns(s, amp, inRun);
      && (!inRun && s != [] ==> r != [])
      && (!inRun && s != [] && IsSeparator(s[0], amp) ==> r[0] == ' ')
      && (r != [] && IsSeparator(s[|s| - 1], amp) ==> r[|r| - 1] == ' ')
  {
    if s != [] {
      CollapseEndRuns(s[1..], amp, IsSeparator(s[0], amp));
    }
  }

  /** The text with every `&` read as a space. */
  function AmpAsSpace(s: string): (r: string)
    ensures |r| == |s|
  {
    if s == [] then [] else [if s[0] == '&' then ' ' else s[0]] + AmpAsSpace(s[1..])
  }

  /** Collapsing runs of `[\s&]` is collapsing runs of `\s` in the text
      whose `&` are spaces. */
  lemma {:induction false} CollapseAmpAsSpace(u: string, inRun: bool)
    ensures CollapseRuns(u, true, inRun) == CollapseRuns(AmpAsSpace(u), false, inRun)
  {
    if u != [] {
      var v := AmpAsSpace(u);
      assert v[0] == (if u[0] == '&' then ' ' else u[0]) && v[1..] == AmpAsSpace(u[1..]);
      assert IsSeparator(u[0], true) <==> IsSeparator(v[0], false);
      CollapseAmpAsSpace(u[1..], true);
      CollapseAmpAsSpace(u[1..], false);
    }
  }

  /** Line 20 keeps the words of the text, `&` separating words like white
      space does: every other character stays, in order, in its word. */
  lemma AmpCollapseKeepsWords(u: string, inRun: bool)
    ensures Words(CollapseRuns(u, true, inRun)) == Words(AmpAsSpace(u))
  {
    CollapseAmpAsSpace(u, inRun);
    CollapseKeepsWords(AmpAsSpace(u), inRun);
  }

  // ------------------------------------------------ re.sub(r"[^a-z0-9 ]", "", _)

  /** Deletes every character outside [a-z0-9 ], keeping the others in order. */
  function KeepKeyChars(s: string): (r: string)
    ensures AllKeyChars(r)
    ensures |r| <= |s|
    ensures AllKeyChars(s) ==> r == s
  {
    if s == [] then []
    else if IsKeyChar(s[0]) then [s[0]] + KeepKeyChars(s[1..])
    else KeepKeyChars(s[1..])
  }

  /** The deletion works character by character: a key character is kept,
      any other character is deleted ... */
  lemma KeepKeyCharsSingle(c: char)
    ensures KeepKeyChars([c]) == if IsKeyChar(c) then [c] else []
  {
    assert [c][1..] == [];
  }

  /** ... and the kept characters of two texts read in turn are the kept
      characters of the first followed by those of the second. */
  lemma {:induction false} KeepKeyCharsAppend(a: string, b: string)
    ensures KeepKeyChars(a + b) == KeepKeyChars(a) + KeepKeyChars(b)
  {
    if a == [] {
      assert a + b == b;
    } else {
      assert (a + b)[0] == a[0] && (a + b)[1..] == a[1..] + b;
      KeepKeyCharsAppend(a[1..], b);
    }
  }

  // ------------------------------------- re.sub(r"\b(feat|ft|featuring)\b", "", _)

  /** The featuring markers the normaliser deletes. */
  predicate IsMarker(w: string)
  {
    w == "feat" || w == "ft" || w == "featuring"
  }

  /** Length of the run of word characters at the start of `t`. */
  function WordLength(t: string): (n: nat)
    requires |t| > 0 && IsWordChar(t[0])
    ensures 1 <= n <= |t|
    ensures forall i :: 0 <= i < n ==> IsWordChar(t[i])
    ensures n == |t| || !IsWordChar(t[n])
  {
    if |t| == 1 || !IsWordChar(t[1]) then 1 else 1 + WordLength(t[1..])
  }

  /** Deletes every whole word (maximal run of word characters) that is a
      featuring marker; `\b` on both sides of the pattern means a match can
      only start where a word starts and end where it ends. Everything else,
      the separators included, is kept. */
  function DropMarkers(t: string): (r: string)
    ensures |r| <= |t|
    ensures AllKeyChars(t) ==> AllKeyChars(r)
    decreases |t|
  {
    if t == [] then []
    else if !IsWordChar(t[0]) then [t[0]] + DropMarkers(t[1..])
    else
      var n := WordLength(t);
      (if IsMarker(t[..n]) then [] else t[..n]) + DropMarkers(t[n..])
  }

  /** The word list without the featuring markers. */
  function KeepWords(ws: seq<string>): (r: seq<string>)
    ensures |r| <= |ws|
    ensures forall w :: w in r <==> w in ws && !IsMarker(w)
  {
    if ws == [] then []
    else if IsMarker(ws[0]) then KeepWords(ws[1..])
    else [ws[0]] + KeepWords(ws[1..])
  }

  // ---------------------------------------------------------------- normalize

  /** The text after the first four rewrites (lines 18-21 of the script). */
  function Prepared(s: string): (r: string)
    ensures AllKeyChars(r)
  {
    KeepKeyChars(CollapseRuns(Fold(Strip(Lower(s))), true, false))
  }

  /** The last two rewrites (lines 22-23 of the script). */
  function Finish(t: string): string
  {
    Strip(CollapseRuns(DropMarkers(t), false, false))
  }

  /** normalize(text): the matching key of a title or a name. It is
      Canonical, and its words are exactly the words of the cleaned text
      that are not featuring markers, in order. */
  function Normalize(s: string): (r: string)
    ensures Canonical(r)
    ensures Words(r) == KeepWords(Words(Prepared(s)))
    ensures forall w :: w in Words(r) ==> !IsMarker(w)
    ensures r == Unwords(Words(r))
  {
    FinishShape(Prepared(s));
    UnwordsOfWords(Finish(Prepared(s)));
    Finish(Prepared(s))
  }

  // ---------------------------------------------------------------- lemmas

  /** Replacing white-space runs by one space keeps the words. */
  lemma {:induction false} CollapseKeepsWords(u: string, inRun: bool)
    ensures Words(CollapseRuns(u, false, inRun)) == Words(u)
  {
    if u == [] {
    } else if IsSpace(u[0]) {
      var c := CollapseRuns(u[1..], false, true);
      CollapseKeepsWords(u[1..], true);
      assert Words(u) == Words(u[1..]);
      if inRun {
        assert CollapseRuns(u, false, inRun) == [] + c == c;
      } else {
        assert CollapseRuns(u, false, inRun) == [' '] + c;
        WordsAfterSpace(' ', c);
      }
    } else {
      var c := CollapseRuns(u[1..], false, false);
      CollapseKeepsWords(u[1..], false);
      assert u == [u[0]] + u[1..];
      WordsConsSame(u[0], c, u[1..]);
    }
  }

  /** The words of `[c] + x` depend only on the words of `x` and on whether
      `x` starts with white space. */
  lemma WordsConsSame(c: char, x: string, y: string)
    requires !IsSpace(c)
    requires Words(x) == Words(y)
    requires (x == []) == (y == [])
    requires x != [] ==> IsSpace(x[0]) == IsSpace(y[0])
    ensures Words([c] + x) == Words([c] + y)
  {
    assert ([c] + x)[1..] == x;
    assert ([c] + y)[1..] == y;
  }

  /** Removing leading white space keeps the words. */
  lemma {:induction false} TrimStartKeepsWords(s: string)
    ensures Words(TrimStart(s)) == Words(s)
  {
    if s != [] && IsSpace(s[0]) {
      TrimStartKeepsWords(s[1..]);
    }
  }

  /** Removing trailing white space keeps the words. */
  lemma {:induction false} TrimEndKeepsWords(s: string)
    ensures Words(TrimEnd(s)) == Words(s)
  {
    if s != [] && IsSpace(s[|s| - 1]) {
      TrimEndKeepsWords(s[..|s| - 1]);
      WordsBeforeSpace(s[..|s| - 1], s[|s| - 1]);
      assert s[..|s| - 1] + [s[|s| - 1]] == s;
    }
  }

  /** In a [a-z0-9 ] text the word characters are exactly the non-spaces. */
  lemma KeyCharClasses(c: char)
    requires IsKeyChar(c)
    ensures IsWordChar(c) <==> c != ' '
    ensures IsSpace(c) <==> c == ' '
  {
  }

  /** Deleting the marker words of a [a-z0-9 ] text deletes exactly the
      marker entries of its word list. */
  lemma {:induction false} DropMarkersWords(t: string)
    requires AllKeyChars(t)
    ensures Words(DropMarkers(t)) == KeepWords(Words(t))
    decreases |t|
  {
    if t == [] {
    } else if !IsWordChar(t[0]) {
      KeyCharClasses(t[0]);
      assert t == [' '] + t[1..];
      DropMarkersWords(t[1..]);
      WordsAfterSpace(' ', DropMarkers(t[1..]));
      WordsAfterSpace(' ', t[1..]);
    } else {
      var n := WordLength(t);
      DropMarkersWords(t[n..]);
      DropMarkersWordStep(t, n);
    }
  }

  /** One step of DropMarkersWords: the first word of the text, given the
      claim for what follows it. */
  lemma DropMarkersWordStep(t: string, n: nat)
    requires AllKeyChars(t) && |t| > 0 && IsWordChar(t[0])
    requires n == WordLength(t)
    requires Words(DropMarkers(t[n..])) == KeepWords(Words(t[n..]))
    ensures Words(DropMarkers(t)) == KeepWords(Words(t))
  {
    var w, rest := t[..n], t[n..];
    FirstWordShape(t, n);
    var d := DropMarkers(rest);
    assert d == [] || d[0] == ' ' by {
      if rest != [] {
        assert d == [' '] + DropMarkers(rest[1..]);
      }
    }
    WordsAfterWord(w, rest);
    KeepWordsCons(w, Words(rest));
    assert DropMarkers(t) == (if IsMarker(w) then [] else w) + d;
    if IsMarker(w) {
      assert DropMarkers(t) == d;
    } else {
      WordsAfterWord(w, d);
    }
  }

  /** A text starting with a word character splits into its first word and
      a rest that starts with a space. */
  lemma FirstWordShape(t: string, n: nat)
    requires AllKeyChars(t) && |t| > 0 && IsWordChar(t[0])
    requires n == WordLength(t)
    ensures t == t[..n] + t[n..]
    ensures IsWord(t[..n])
    ensures t[n..] != [] ==> t[n..][0] == ' ' && AllKeyChars(t[n..])
  {
    var w, rest := t[..n], t[n..];
    forall i | 0 <= i < |w| ensures !IsSpace(w[i]) {
      KeyCharClasses(w[i]);
    }
    if rest != [] {
      KeyCharClasses(rest[0]);
    }
  }

  lemma KeepWordsCons(w: string, ws: seq<string>)
    ensures KeepWords([w] + ws) == (if IsMarker(w) then [] else [w]) + KeepWords(ws)
  {
    assert ([w] + ws)[0] == w && ([w] + ws)[1..] == ws;
  }

  /** What the last two rewrites make of a [a-z0-9 ] text: a canonical key
      whose words are the text's non-marker words. */
  lemma FinishShape(t: string)
    requires AllKeyChars(t)
    ensures Canonical(Finish(t))
    ensures Words(Finish(t)) == KeepWords(Words(t))
  {
    FinishCanonical(t);
    FinishWords(t);
  }

  lemma FinishCanonical(t: string)
    requires AllKeyChars(t)
    ensures Canonical(Finish(t))
  {
    var c := CollapseRuns(DropMarkers(t), false, false);
    CollapseSingleSpaced(DropMarkers(t));
    var r := Strip(c);
    if r != [] {
      assert !IsSpace(r[0]) && !IsSpace(r[|r| - 1]);
    }
  }

  /** Collapsing the runs of `\s` leaves no two spaces in a row. */
  lemma CollapseSingleSpaced(d: string)
    ensures NoDoubleSpace(CollapseRuns(d, false, false))
  {
    var c := CollapseRuns(d, false, false);
    forall k | 0 <= k < |c| - 1 ensures !(IsSpace(c[k]) && IsSpace(c[k + 1])) {
      assert !(IsSeparator(c[k], false) && IsSeparator(c[k + 1], false));
    }
  }

  lemma FinishWords(t: string)
    requires AllKeyChars(t)
    ensures Words(Finish(t)) == KeepWords(Words(t))
  {
    var d := DropMarkers(t);
    var c := CollapseRuns(d, false, false);
    DropMarkersWords(t);
    CollapseKeepsWords(d, false);
    TrimStartKeepsWords(c);
    TrimEndKeepsWords(TrimStart(c));
  }

  /** Runs of white space in a single-spaced [a-z0-9 ] text are already
      single, so collapsing them changes nothing. */
  lemma {:induction false} CollapseIdentity(n: string, amp: bool, inRun: bool)
    requires AllKeyChars(n) && NoDoubleSpace(n)
    requires inRun && n != [] ==> n[0] != ' '
    ensures CollapseRuns(n, amp, inRun) == n
  {
    if n != [] {
      KeyCharClasses(n[0]);
      SuffixKeepsShape(n, 1);
      if n[0] == ' ' {
        if |n| > 1 {
          KeyCharClasses(n[1]);
        }
        CollapseIdentity(n[1..], amp, true);
      } else {
        CollapseIdentity(n[1..], amp, false);
      }
      assert [n[0]] + n[1..] == n;
    }
  }

  /** A canonical key goes through the first four rewrites unchanged. */
  lemma PreparedOfCanonical(n: string)
    requires Canonical(n)
    ensures Prepared(n) == n
  {
    assert Lower(n) == n by {
      forall i | 0 <= i < |n| ensures Lower(n)[i] == n[i] {
        assert !IsUpper(n[i]);
      }
    }
    if n != [] {
      KeyCharClasses(n[0]);
      KeyCharClasses(n[|n| - 1]);
    }
    assert TrimStart(n) == n;
    assert TrimEnd(n) == n;
    assert Fold(n) == n by {
      assert forall i :: 0 <= i < |n| ==> IsAscii(n[i]);
    }
    CollapseIdentity(n, true, false);
  }

  /** Keeping the non-marker words of a marker-free list keeps all of it. */
  lemma {:induction false} KeepWordsNoMarkers(ws: seq<string>)
    requires forall w :: w in ws ==> !IsMarker(w)
    ensures KeepWords(ws) == ws
  {
    if ws != [] {
      assert ws[0] in ws;
      KeepWordsNoMarkers(ws[1..]);
      assert [ws[0]] + ws[1..] == ws;
    }
  }

  /** Normalising a key gives the key back. */
  lemma NormalizeIdempotent(s: string)
    ensures Normalize(Normalize(s)) == Normalize(s)
  {
    var n := Normalize(s);
    PreparedOfCanonical(n);
    KeepWordsNoMarkers(Words(n));
    CanonicalByWords(Normalize(n), n);
  }

  /** Lower-casing the input first does not change the key. */
  lemma NormalizeIgnoresCase(s: string)
    ensures Normalize(Lower(s)) == Normalize(s)
  {
    LowerIdempotent(s);
  }

  /** Two texts of one length that have white space at the same places and
      whose characters fold to the same ASCII, place by place. */
  predicate ReadAlike(x: string, y: string)
  {
    |x| == |y| &&
    forall i :: 0 <= i < |x| ==> (IsSpace(x[i]) <==> IsSpace(y[i])) && FoldChar(x[i]) == FoldChar(y[i])
  }

  lemma ReadAlikeSuffix(x: string, y: string, a: nat)
    requires ReadAlike(x, y) && a <= |x|
    ensures ReadAlike(x[a..], y[a..])
  {
    assert forall i :: 0 <= i < |x| - a ==> x[a..][i] == x[a + i] && y[a..][i] == y[a + i];
  }

  lemma ReadAlikePrefix(x: string, y: string, b: nat)
    requires ReadAlike(x, y) && b <= |x|
    ensures ReadAlike(x[..b], y[..b])
  {
    assert forall i :: 0 <= i < b ==> x[..b][i] == x[i] && y[..b][i] == y[i];
  }

  lemma {:induction false} TrimStartAlike(x: string, y: string)
    requires ReadAlike(x, y)
    ensures |TrimStart(x)| == |TrimStart(y)|
  {
    if x != [] && IsSpace(x[0]) {
      ReadAlikeSuffix(x, y, 1);
      TrimStartAlike(x[1..], y[1..]);
    }
  }

  lemma {:induction false} TrimEndAlike(x: string, y: string)
    requires ReadAlike(x, y)
    ensures |TrimEnd(x)| == |TrimEnd(y)|
  {
    if x != [] && IsSpace(x[|x| - 1]) {
      ReadAlikePrefix(x, y, |x| - 1);
      TrimEndAlike(x[..|x| - 1], y[..|y| - 1]);
    }
  }

  /** Texts read alike strip to the same stretch, so they still read alike. */
  lemma StripAlike(x: string, y: string)
    requires ReadAlike(x, y)
    ensures ReadAlike(Strip(x), Strip(y))
  {
    var u, v := TrimStart(x), TrimStart(y);
    TrimStartAlike(x, y);
    ReadAlikeSuffix(x, y, |x| - |u|);
    TrimEndAlike(u, v);
    ReadAlikePrefix(u, v, |TrimEnd(u)|);
  }

  /** Texts read alike fold to the same ASCII text. */
  lemma {:induction false} FoldAlike(x: string, y: string)
    requires ReadAlike(x, y)
    ensures Fold(x) == Fold(y)
  {
    if x != [] {
      ReadAlikeSuffix(x, y, 1);
      FoldAlike(x[1..], y[1..]);
    }
  }

  /** Lower-casing neither makes nor removes white space. */
  lemma LowerKeepsSpace(c: char)
    ensures IsSpace(LowerChar(c)) <==> IsSpace(c)
  {
  }

  /** Two texts that read the same once lower-cased, stripped and folded to
      ASCII have the same key. */
  lemma SameFoldSameKey(s: string, t: string)
    requires Fold(Strip(Lower(s))) == Fold(Strip(Lower(t)))
    ensures Normalize(s) == Normalize(t)
  {
    assert Prepared(s) == Prepared(t);
  }

  /** The key ignores accents and case: two texts of one length, with white
      space at the same places, whose lower-cased characters fold to the
      same ASCII place by place, have the same key ("Caf\U{E9}" and
      "cafe", "\U{C9}T\U{C9}" and "ete"). */
  lemma NormalizeIgnoresAccents(s: string, t: string)
    requires |s| == |t|
    requires forall i :: 0 <= i < |s| ==> (IsSpace(s[i]) <==> IsSpace(t[i]))
    requires forall i :: 0 <= i < |s| ==> FoldChar(LowerChar(s[i])) == FoldChar(LowerChar(t[i]))
    ensures Normalize(s) == Normalize(t)
  {
    var x, y := Lower(s), Lower(t);
    forall i | 0 <= i < |x| ensures (IsSpace(x[i]) <==> IsSpace(y[i])) && FoldChar(x[i]) == FoldChar(y[i]) {
      LowerKeepsSpace(s[i]);
      LowerKeepsSpace(t[i]);
    }
    StripAlike(x, y);
    FoldAlike(Strip(x), Strip(y));
    SameFoldSameKey(s, t);
  }

  /** A canonical string whose words are the cleaned text's non-marker
      words is the key of that text. */
  lemma NormalizeByWords(s: string, n: string)
    requires Canonical(n)
    requires Words(n) == KeepWords(Words(Prepared(s)))
    ensures Normalize(s) == n
  {
    CanonicalByWords(Normalize(s), n);
  }

  // Worked examples. Each literal fact is a lemma of its own, and the
  // pipeline is connected to them through parameters, so that the verifier
  // never unfolds the whole pipeline on a literal at once. The one-fact
  // lemmas (AmpersandLower ... FeatKeep, WordsAB) are such steps: each is
  // a single evaluation the verifier does unaided, kept apart only so that
  // no proof has to do several of them together.

  /** The key of an already lower-case, canonical text is determined by its
      words alone. */
  lemma NormalizeOfCleanText(s: string, t: string, n: string)
    requires Lower(s) == t && Lower(t) == t && Canonical(t) && Canonical(n)
    requires Words(n) == KeepWords(Words(t))
    ensures Normalize(s) == n
  {
    PreparedOfCanonical(t);
    assert Prepared(s) == Prepared(t);
    NormalizeByWords(s, n);
  }

  lemma AmpersandLower()
    ensures Lower("a&b") == "a&b"
  {
  }

  lemma AmpersandStrip()
    ensures Strip("a&b") == "a&b"
  {
    StripKeepsTrimmed("a&b");
  }

  lemma AmpersandFold()
    ensures Fold("a&b") == "a&b"
  {
  }

  lemma AmpersandCollapse()
    ensures CollapseRuns("a&b", true, false) == "a b"
  {
  }

  lemma AmpersandKeep()
    ensures KeepKeyChars("a b") == "a b"
  {
  }

  lemma WordsAB()
    ensures Canonical("a b")
    ensures Words("a b") == ["a", "b"] == KeepWords(["a", "b"])
  {
  }

  /** `&` separates words like white space does. */
  lemma AmpersandSeparates()
    ensures Normalize("a&b") == "a b"
  {
    AmpersandLower();
    AmpersandStrip();
    AmpersandFold();
    AmpersandCollapse();
    AmpersandKeep();
    WordsAB();
    NormalizeByWords("a&b", "a b");
  }

  lemma CraftLower()
    ensures Lower("Craft") == "craft"
  {
  }

  lemma CraftText()
    ensures Lower("craft") == "craft"
    ensures Canonical("craft")
  {
  }

  lemma CraftWord()
    ensures Unwords(["craft"]) == "craft" && IsWord("craft")
    ensures KeepWords(["craft"]) == ["craft"]
  {
  }

  /** A marker embedded in a longer word is not deleted. */
  lemma EmbeddedMarkerSurvives()
    ensures Normalize("Craft") == "craft"
  {
    CraftLower();
    CraftText();
    CraftWord();
    WordsOfUnwords(["craft"]);
    NormalizeOfCleanText("Craft", "craft", "craft");
  }

  lemma NanText()
    ensures Lower("Nan") == "nan" && Lower("nan") == "nan"
    ensures Canonical("nan")
  {
  }

  lemma NanWord()
    ensures Unwords(["nan"]) == "nan" && IsWord("nan")
    ensures KeepWords(["nan"]) == ["nan"]
  {
  }

  /** The text "nan", which str() makes of a missing cell, is its own key,
      and so is another spelling of it such as "Nan". */
  lemma NanKey()
    ensures Normalize("Nan") == "nan" && Normalize("nan") == "nan"
  {
    NanText();
    NanWord();
    WordsOfUnwords(["nan"]);
    NormalizeOfCleanText("Nan", "nan", "nan");
    NormalizeOfCleanText("nan", "nan", "nan");
  }

  lemma FeatLower()
    ensures Lower("a feat b") == "a feat b"
  {
  }

  lemma FeatCanonical()
    ensures Canonical("a feat b")
  {
  }

  lemma FeatWords()
    ensures Unwords(["a", "feat", "b"]) == "a feat b"
    ensures forall k :: 0 <= k < 3 ==> IsWord(["a", "feat", "b"][k])
  {
  }

  lemma FeatKeep()
    ensures KeepWords(["a", "feat", "b"]) == ["a", "b"]
  {
  }

  /** A standalone marker word is deleted. */
  lemma MarkerWordDeleted()
    ensures Normalize("a feat b") == "a b"
  {
    FeatLower();
    FeatCanonical();
    FeatWords();
    FeatKeep();
    WordsAB();
    WordsOfUnwords(["a", "feat", "b"]);
    NormalizeOfCleanText("a feat b", "a feat b", "a b");
  }

  /** Accents are folded away: "Caf\U{E9}" and "cafe" have the same key. */
  lemma AccentIgnored()
    ensures Normalize("Caf\U{E9}") == Normalize("cafe")
  {
    var s, t := "Caf\U{E9}", "cafe";
    forall i | 0 <= i < 4
      ensures (IsSpace(s[i]) <==> IsSpace(t[i])) && FoldChar(LowerChar(s[i])) == FoldChar(LowerChar(t[i]))
    {
    }
    NormalizeIgnoresAccents(s, t);
  }
}
