/** Character classes and the word structure of matching keys.

    A matching key produced by the normaliser is a sequence of words made of
    lower-case ASCII letters and digits, separated by single spaces. This
    module defines that shape (Canonical), splitting a string into its
    words (Words) and joining words back (Unwords), and proves that for a
    canonical string the two are inverse. */
module Text {

  /** Python's str.isspace(), which is also what `\s` and str.strip() use:
      the ASCII controls TAB..CR and FS..US, space, NEL, no-break space and
      the Unicode space separators. */
  predicate IsSpace(c: char)
  {
    var n := c as int;
    (9 <= n <= 13) || (28 <= n <= 32) || n == 0x85 || n == 0xA0 || n == 0x1680
    || (0x2000 <= n <= 0x200A) || n == 0x2028 || n == 0x2029 || n == 0x202F
    || n == 0x205F || n == 0x3000
  }

  /** Characters that survive `[^a-z0-9 ]` deletion. */
  predicate IsKeyChar(c: char)
  {
    ('a' <= c <= 'z') || ('0' <= c <= '9') || c == ' '
  }

  /** Characters `\w` matches in an ASCII string, so the ones `\b` looks at. */
  predicate IsWordChar(c: char)
  {
    ('a' <= c <= 'z') || ('A' <= c <= 'Z') || ('0' <= c <= '9') || c == '_'
  }

  predicate AllKeyChars(s: string)
  {
    forall i :: 0 <= i < |s| ==> IsKeyChar(s[i])
  }

  /** No two neighbouring characters are both white space. */
  predicate NoDoubleSpace(s: string)
  {
    forall i :: 0 <= i < |s| - 1 ==> !(IsSpace(s[i]) && IsSpace(s[i + 1]))
  }

  /** The shape of a matching key: only [a-z0-9 ], no space at either end,
      never two spaces in a row. */
  predicate Canonical(s: string)
  {
    AllKeyChars(s) && NoDoubleSpace(s) && (|s| > 0 ==> s[0] != ' ' && s[|s| - 1] != ' ')
  }

  /** A word: non-empty and free of white space. */
  predicate IsWord(w: string)
  {
    |w| > 0 && forall i :: 0 <= i < |w| ==> !IsSpace(w[i])
  }

  /** The maximal runs of non-space characters of `s`, in order. */
  function Words(s: string): (ws: seq<string>)
    ensures forall k :: 0 <= k < |ws| ==> IsWord(ws[k])
    ensures |s| > 0 && !IsSpace(s[0]) ==> |ws| > 0 && IsWord(ws[0]) && ws[0][0] == s[0]
  {
    if s == [] then []
    else if IsSpace(s[0]) then Words(s[1..])
    else if |s| == 1 || IsSpace(s[1]) then [[s[0]]] + Words(s[1..])
    else
      var rest := Words(s[1..]);
      [[s[0]] + rest[0]] + rest[1..]
  }

  /** The words joined by single spaces. */
  function Unwords(ws: seq<string>): string
  {
    if ws == [] then []
    else if |ws| == 1 then ws[0]
    else ws[0] + [' '] + Unwords(ws[1..])
  }

  /** A word followed by nothing or by white space is the first word. */
  lemma {:induction false} WordsAfterWord(w: string, x: string)
    requires IsWord(w)
    requires x == [] || IsSpace(x[0])
    ensures Words(w + x) == [w] + Words(x)
  {
    var s := w + x;
    assert s[1..] == w[1..] + x;
    if |w| == 1 {
      assert s[1..] == x;
      assert w == [w[0]];
    } else {
      WordsAfterWord(w[1..], x);
      assert [w[0]] + w[1..] == w;
    }
  }

  /** Leading white space does not change the words. */
  lemma WordsAfterSpace(c: char, x: string)
    requires IsSpace(c)
    ensures Words([c] + x) == Words(x)
  {
    assert ([c] + x)[1..] == x;
  }

  /** Trailing white space does not change the words. */
  lemma {:induction false} WordsBeforeSpace(x: string, c: char)
    requires IsSpace(c)
    ensures Words(x + [c]) == Words(x)
  {
    var s := x + [c];
    if x == [] {
      assert Words(s) == Words(s[1..]);
      assert s[1..] == [];
    } else {
      assert s[1..] == x[1..] + [c];
      WordsBeforeSpace(x[1..], c);
    }
  }

  /** Splitting joined words gives the words back. */
  lemma {:induction false} WordsOfUnwords(ws: seq<string>)
    requires forall k :: 0 <= k < |ws| ==> IsWord(ws[k])
    ensures Words(Unwords(ws)) == ws
  {
    if ws == [] {
    } else if |ws| == 1 {
      WordsAfterWord(ws[0], []);
      assert ws[0] + [] == ws[0];
    } else {
      var tail := Unwords(ws[1..]);
      WordsOfUnwords(ws[1..]);
      WordsAfterSpace(' ', tail);
      WordsAfterWord(ws[0], [' '] + tail);
      assert ws[0] + [' '] + tail == ws[0] + ([' '] + tail);
      assert [ws[0]] + ws[1..] == ws;
    }
  }

  /** Joining the words of a string whose only white space is single
      interior spaces gives the string back. */
  lemma {:induction false} UnwordsOfWords(s: string)
    requires Canonical(s)
    ensures Unwords(Words(s)) == s
  {
    if s == [] {
    } else if |s| == 1 {
      assert Words(s) == [[s[0]]] + Words(s[1..]);
      assert s[1..] == [];
    } else if s[1] == ' ' {
      var t := s[2..];
      assert |t| > 0 by { assert s[|s| - 1] != ' '; }
      assert t[0] != ' ' by { assert !(IsSpace(s[1]) && IsSpace(s[2])); }
      CanonicalSuffix(s, 2);
      UnwordsOfWords(t);
      assert s[1..] == [' '] + t;
      WordsAfterSpace(' ', t);
      assert Words(s) == [[s[0]]] + Words(t);
      assert [s[0]] + [' '] + t == s;
    } else {
      var t := s[1..];
      CanonicalSuffix(s, 1);
      UnwordsOfWords(t);
      var rest := Words(t);
      assert Words(s) == [[s[0]] + rest[0]] + rest[1..];
      UnwordsConsChar(s[0], rest);
      assert [s[0]] + t == s;
    }
  }

  /** A suffix of a canonical string that starts on a non-space is canonical. */
  lemma CanonicalSuffix(s: string, d: nat)
    requires Canonical(s) && d < |s| && s[d] != ' '
    ensures Canonical(s[d..])
  {
    var t := s[d..];
    forall i | 0 <= i < |t| - 1 ensures !(IsSpace(t[i]) && IsSpace(t[i + 1])) {
      assert t[i] == s[i + d] && t[i + 1] == s[i + d + 1];
    }
  }

  /** Prefixing a character to the first word prefixes it to the joined string. */
  lemma UnwordsConsChar(c: char, ws: seq<string>)
    requires |ws| > 0
    ensures Unwords([[c] + ws[0]] + ws[1..]) == [c] + Unwords(ws)
  {
    var w, rest := ws[0], ws[1..];
    assert ws == [w] + rest;
    if rest == [] {
      UnwordsSingle([c] + w);
      UnwordsSingle(w);
    } else {
      UnwordsCons([c] + w, rest);
      UnwordsCons(w, rest);
      var tail := Unwords(rest);
      AppendAssoc(c, w, tail);
    }
  }

  lemma AppendAssoc(c: char, w: string, tail: string)
    ensures ([c] + w) + [' '] + tail == [c] + (w + [' '] + tail)
  {
  }

  lemma UnwordsSingle(w: string)
    ensures Unwords([w]) == w
  {
  }

  lemma UnwordsCons(w: string, rest: seq<string>)
    requires rest != []
    ensures Unwords([w] + rest) == w + [' '] + Unwords(rest)
  {
    assert ([w] + rest)[0] == w && ([w] + rest)[1..] == rest;
  }

  /** Two canonical strings with the same words are equal. */
  lemma CanonicalByWords(s: string, t: string)
    requires Canonical(s) && Canonical(t)
    requires Words(s) == Words(t)
    ensures s == t
  {
    UnwordsOfWords(s);
    UnwordsOfWords(t);
  }
}
