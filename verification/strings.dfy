/**
 * The few pieces of Python's `str` that the polygon `points` parser uses:
 * `isspace`, `strip()`, `split()` (no argument: split on runs of whitespace)
 * and `split(sep)` (split on every occurrence of one separator).
 */
module Strings {

  /** Python's `str.isspace` for one character. */
  predicate IsSpace(c: char) {
    ('\t' <= c <= '\r') || ('\U{1c}' <= c <= '\U{1f}') || c == ' '
    || c == '\U{85}' || c == '\U{a0}' || c == '\U{1680}'
    || ('\U{2000}' <= c <= '\U{200a}') || c == '\U{2028}' || c == '\U{2029}'
    || c == '\U{202f}' || c == '\U{205f}' || c == '\U{3000}'
  }

  predicate NoSpace(s: string) {
    forall i :: 0 <= i < |s| ==> !IsSpace(s[i])
  }

  /** The characters of `s` that are not whitespace, in order. */
  function NonSpace(s: string): string {
    if s == [] then [] else (if IsSpace(s[0]) then [] else [s[0]]) + NonSpace(s[1..])
  }

  /** The strings of `ws` glued together, with nothing between them. */
  function Concat(ws: seq<string>): string {
    if ws == [] then [] else ws[0] + Concat(ws[1..])
  }

  // ---------------------------------------------------------------- strip()

  function StripLeft(s: string): (r: string)
    ensures r == [] || !IsSpace(r[0])
    ensures |r| <= |s| && r == s[|s| - |r|..]
    ensures forall i :: 0 <= i < |s| - |r| ==> IsSpace(s[i])
  {
    if s != [] && IsSpace(s[0]) then StripLeft(s[1..]) else s
  }

  function StripRight(s: string): (r: string)
    ensures r == [] || !IsSpace(r[|r| - 1])
    ensures |r| <= |s| && r == s[..|r|]
    ensures forall i :: |r| <= i < |s| ==> IsSpace(s[i])
  {
    if s != [] && IsSpace(s[|s| - 1]) then StripRight(s[..|s| - 1]) else s
  }

  /** Python's `s.strip()`: `s` without leading and trailing whitespace. */
  function Strip(s: string): (r: string)
    ensures r == [] || (!IsSpace(r[0]) && !IsSpace(r[|r| - 1]))
  {
    StripRight(StripLeft(s))
  }

  // ---------------------------------------------------------------- split()

  /** `[cur]` when the word being collected is non-empty, else nothing. */
  function Flush(cur: string): seq<string> {
    if cur == [] then [] else [cur]
  }

  /**
   * Python's `s.split()` continued from a word `cur` already collected:
   * the maximal runs of non-whitespace characters, in order.
   */
  function WordsFrom(s: string, cur: string): (r: seq<string>)
    requires NoSpace(cur)
    ensures forall w :: w in r ==> w != [] && NoSpace(w)
    decreases |s|
  {
    if s == [] then Flush(cur)
    else if IsSpace(s[0]) then Flush(cur) + WordsFrom(s[1..], [])
    else WordsFrom(s[1..], cur + [s[0]])
  }

  /** Python's `s.split()`. */
  function Words(s: string): (r: seq<string>)
    ensures forall w :: w in r ==> w != [] && NoSpace(w)
  {
    WordsFrom(s, [])
  }

  /** The inverse of `Words`: the words joined by single spaces. */
  function Unwords(ws: seq<string>): string {
    if ws == [] then []
    else if |ws| == 1 then ws[0]
    else ws[0] + " " + Unwords(ws[1..])
  }

  lemma {:induction false} WordsFromKeepsText(s: string, cur: string)
    requires NoSpace(cur)
    ensures Concat(WordsFrom(s, cur)) == cur + NonSpace(s)
    decreases |s|
  {
    if s == [] {
    } else if IsSpace(s[0]) {
      WordsFromKeepsText(s[1..], []);
      ConcatAppend(Flush(cur), WordsFrom(s[1..], []));
    } else {
      WordsFromKeepsText(s[1..], cur + [s[0]]);
    }
  }

  /** Splitting loses only the whitespace: the words, glued together, are `s` without its whitespace. */
  lemma WordsKeepText(s: string)
    ensures Concat(Words(s)) == NonSpace(s)
  {
    WordsFromKeepsText(s, []);
  }

  lemma {:induction false} ConcatAppend(a: seq<string>, b: seq<string>)
    ensures Concat(a + b) == Concat(a) + Concat(b)
  {
    if a == [] {
      assert a + b == b;
    } else {
      assert (a + b)[1..] == a[1..] + b;
      ConcatAppend(a[1..], b);
    }
  }

  /** A run of non-whitespace is absorbed into the word being collected. */
  lemma {:induction false} WordsFromRun(t: string, rest: string, cur: string)
    requires NoSpace(cur) && NoSpace(t)
    ensures WordsFrom(t + rest, cur) == WordsFrom(rest, cur + t)
    decreases |t|
  {
    if t != [] {
      assert (t + rest)[1..] == t[1..] + rest;
      assert cur + [t[0]] + t[1..] == cur + t;
      WordsFromRun(t[1..], rest, cur + [t[0]]);
    } else {
      assert t + rest == rest;
      assert cur + t == cur;
    }
  }

  /** Round trip: splitting words joined by single spaces gives the words back. */
  lemma {:induction false} WordsUnwords(ws: seq<string>)
    requires forall w :: w in ws ==> w != [] && NoSpace(w)
    ensures Words(Unwords(ws)) == ws
  {
    if |ws| == 1 {
      WordsFromRun(ws[0], [], []);
      assert ws[0] + [] == ws[0];
      assert [] + ws[0] == ws[0];
    } else if |ws| > 1 {
      var rest := Unwords(ws[1..]);
      assert Unwords(ws) == ws[0] + (" " + rest);
      WordsFromRun(ws[0], " " + rest, []);
      assert [] + ws[0] == ws[0];
      assert (" " + rest)[1..] == rest;
      WordsUnwords(ws[1..]);
      assert ws == [ws[0]] + ws[1..];
    }
  }

  /** A trailing whitespace character does not change the split. */
  lemma {:induction false} WordsFromTrailingSpace(s: string, c: char, cur: string)
    requires NoSpace(cur) && IsSpace(c)
    ensures WordsFrom(s + [c], cur) == WordsFrom(s, cur)
    decreases |s|
  {
    if s == [] {
      assert [] + [c] == [c];
      assert [c][1..] == [];
    } else {
      assert (s + [c])[1..] == s[1..] + [c];
      if IsSpace(s[0]) {
        WordsFromTrailingSpace(s[1..], c, []);
      } else {
        WordsFromTrailingSpace(s[1..], c, cur + [s[0]]);
      }
    }
  }

  lemma {:induction false} WordsStripLeft(s: string)
    ensures Words(StripLeft(s)) == Words(s)
    decreases |s|
  {
    if s != [] && IsSpace(s[0]) {
      calc {
        Words(StripLeft(s));
        Words(StripLeft(s[1..]));
        { WordsStripLeft(s[1..]); }
        WordsFrom(s[1..], []);
        Flush([]) + WordsFrom(s[1..], []);
        Words(s);
      }
    }
  }

  lemma {:induction false} WordsStripRight(s: string)
    ensures Words(StripRight(s)) == Words(s)
    decreases |s|
  {
    if s != [] && IsSpace(s[|s| - 1]) {
      var init := s[..|s| - 1];
      WordsStripRight(init);
      assert s == init + [s[|s| - 1]];
      WordsFromTrailingSpace(init, s[|s| - 1], []);
    }
  }

  /** `s.strip().split()` is `s.split()`: stripping first changes nothing. */
  lemma WordsStrip(s: string)
    ensures Words(Strip(s)) == Words(s)
  {
    WordsStripRight(StripLeft(s));
    WordsStripLeft(s);
  }

  // ------------------------------------------------------------ split(sep)

  /** Python's `s.split(sep)` continued from a piece `cur` already collected. */
  function SplitFrom(s: string, sep: char, cur: string): (r: seq<string>)
    requires sep !in cur
    ensures |r| >= 1
    ensures forall p :: p in r ==> sep !in p
    decreases |s|
  {
    if s == [] then [cur]
    else if s[0] == sep then [cur] + SplitFrom(s[1..], sep, [])
    else SplitFrom(s[1..], sep, cur + [s[0]])
  }

  /** Python's `s.split(sep)`: the pieces between occurrences of `sep`, empty ones included. */
  function Split(s: string, sep: char): (r: seq<string>)
    ensures |r| >= 1
    ensures forall p :: p in r ==> sep !in p
  {
    SplitFrom(s, sep, [])
  }

  /** Python's `sep.join(pieces)`. */
  function Join(pieces: seq<string>, sep: char): string
    requires |pieces| >= 1
  {
    if |pieces| == 1 then pieces[0] else pieces[0] + [sep] + Join(pieces[1..], sep)
  }

  /** Number of occurrences of `c` in `s`. */
  function Count(s: string, c: char): nat {
    if s == [] then 0 else (if s[0] == c then 1 else 0) + Count(s[1..], c)
  }

  lemma {:induction false} JoinSplitFrom(s: string, sep: char, cur: string)
    requires sep !in cur
    ensures Join(SplitFrom(s, sep, cur), sep) == cur + s
    ensures |SplitFrom(s, sep, cur)| == Count(s, sep) + 1
    decreases |s|
  {
    if s == [] {
    } else if s[0] == sep {
      JoinSplitFrom(s[1..], sep, []);
      assert s == [sep] + s[1..];
    } else {
      JoinSplitFrom(s[1..], sep, cur + [s[0]]);
      assert s == [s[0]] + s[1..];
    }
  }

  /** Round trip: joining the pieces with `sep` gives `s` back, and there is one piece more than separators. */
  lemma JoinSplit(s: string, sep: char)
    ensures Join(Split(s, sep), sep) == s
    ensures |Split(s, sep)| == Count(s, sep) + 1
  {
    JoinSplitFrom(s, sep, []);
  }

  lemma {:induction false} CountPositive(s: string, c: char)
    requires c in s
    ensures Count(s, c) >= 1
    decreases |s|
  {
    if s[0] != c {
      assert c in s[1..];
      CountPositive(s[1..], c);
    }
  }

  /** A string that contains the separator splits into at least two pieces. */
  lemma SplitAtLeastTwo(s: string, sep: char)
    requires sep in s
    ensures |Split(s, sep)| >= 2
  {
    JoinSplit(s, sep);
    CountPositive(s, sep);
  }

  lemma {:induction false} SplitFromRun(t: string, rest: string, sep: char, cur: string)
    requires sep !in cur && sep !in t
    ensures SplitFrom(t + rest, sep, cur) == SplitFrom(rest, sep, cur + t)
    decreases |t|
  {
    if t != [] {
      assert (t + rest)[1..] == t[1..] + rest;
      assert cur + [t[0]] + t[1..] == cur + t;
      SplitFromRun(t[1..], rest, sep, cur + [t[0]]);
    } else {
      assert t + rest == rest;
      assert cur + t == cur;
    }
  }

  /** Round trip: splitting separator-free pieces joined by `sep` gives the pieces back. */
  lemma {:induction false} SplitJoin(pieces: seq<string>, sep: char)
    requires |pieces| >= 1
    requires forall p :: p in pieces ==> sep !in p
    ensures Split(Join(pieces, sep), sep) == pieces
  {
    if |pieces| == 1 {
      SplitFromRun(pieces[0], [], sep, []);
      assert pieces[0] + [] == pieces[0];
      assert [] + pieces[0] == pieces[0];
    } else {
      var rest := Join(pieces[1..], sep);
      assert Join(pieces, sep) == pieces[0] + ([sep] + rest);
      SplitFromRun(pieces[0], [sep] + rest, sep, []);
      assert [] + pieces[0] == pieces[0];
      assert ([sep] + rest)[1..] == rest;
      SplitJoin(pieces[1..], sep);
      assert pieces == [pieces[0]] + pieces[1..];
    }
  }
}
