/**
  The parts of Python's string handling the crawler relies on, over `seq<char>`:
  argument-less `strip()` and `split()`, `strip("'")`, and the first group of
  the non-greedy pattern `\((.*?)\)` as `re.findall(...)[0]` returns it.
 */
module Text {
  import opened Wrappers

  /** Whitespace as Python's argument-less `str.strip()` and `str.split()` see it. */
  predicate IsSpace(c: char)
  {
    || c == ' ' || ('\t' <= c <= '\r') || ('\U{1C}' <= c <= '\U{1F}')
    || c == '\U{85}' || c == '\U{A0}' || c == '\U{1680}' || ('\U{2000}' <= c <= '\U{200A}')
    || c == '\U{2028}' || c == '\U{2029}' || c == '\U{202F}' || c == '\U{205F}' || c == '\U{3000}'
  }

  predicate IsQuote(c: char)
  {
    c == '\''
  }

  /** The character sets `strip` removes: whitespace, or the quote given to `strip("'")`. */
  datatype CharClass = Spaces | Quotes

  predicate Drops(cls: CharClass, c: char)
  {
    match cls
    case Spaces => IsSpace(c)
    case Quotes => IsQuote(c)
  }

  /** No whitespace anywhere in `s`. */
  predicate Unspaced(s: string)
  {
    forall i :: 0 <= i < |s| ==> !IsSpace(s[i])
  }

  /** Drops the longest prefix whose characters are in class `drop`. */
  function TrimStart(s: string, drop: CharClass): (r: string)
    ensures |r| <= |s| && r == s[|s| - |r|..]
    ensures r == [] || !Drops(drop, r[0])
    ensures forall i :: 0 <= i < |s| - |r| ==> Drops(drop, s[i])
    decreases |s|
  {
    if s != [] && Drops(drop, s[0]) then TrimStart(s[1..], drop) else s
  }

  /** Drops the longest suffix whose characters are in class `drop`. */
  function TrimEnd(s: string, drop: CharClass): (r: string)
    ensures |r| <= |s| && r == s[..|r|]
    ensures r == [] || !Drops(drop, r[|r| - 1])
    ensures forall i :: |r| <= i < |s| ==> Drops(drop, s[i])
    decreases |s|
  {
    if s != [] && Drops(drop, s[|s| - 1]) then TrimEnd(s[..|s| - 1], drop) else s
  }

  /** `s.strip()` */
  function Strip(s: string): string
  {
    TrimEnd(TrimStart(s, Spaces), Spaces)
  }

  /** `s.strip("'")` */
  function StripQuotes(s: string): string
  {
    TrimEnd(TrimStart(s, Quotes), Quotes)
  }

  /** A string that starts and ends with a non-space character is its own `strip()`. */
  lemma StripTrimmed(s: string)
    requires s != [] && !IsSpace(s[0]) && !IsSpace(s[|s| - 1])
    ensures Strip(s) == s
  {
    assert TrimStart(s, Spaces) == s;
  }

  lemma TrimStartDrops(c: char, s: string, drop: CharClass)
    requires Drops(drop, c)
    ensures TrimStart([c] + s, drop) == TrimStart(s, drop)
  {
    assert ([c] + s)[1..] == s;
  }

  lemma TrimEndDrops(s: string, c: char, drop: CharClass)
    requires Drops(drop, c)
    ensures TrimEnd(s + [c], drop) == TrimEnd(s, drop)
  {
    assert (s + [c])[..|s|] == s;
  }

  /** `strip("'")` removes exactly the quotes put around a value that has none at its ends. */
  lemma StripQuotesAround(v: string)
    requires v == [] || (!IsQuote(v[0]) && !IsQuote(v[|v| - 1]))
    ensures StripQuotes("'" + v + "'") == v
  {
    var tail := v + ['\''];
    assert "'" + v + "'" == ['\''] + tail;
    TrimStartDrops('\'', tail, Quotes);
    if v == [] {
      assert tail == ['\''] + [];
      TrimStartDrops('\'', [], Quotes);
    } else {
      assert tail[0] == v[0];
      assert TrimStart(tail, Quotes) == tail;
      TrimEndDrops(v, '\'', Quotes);
    }
  }

  /** The longest prefix of `s` without whitespace. */
  function Word(s: string): (w: string)
    ensures |w| <= |s| && w == s[..|w|]
    ensures Unspaced(w)
    ensures |w| < |s| ==> IsSpace(s[|w|])
    decreases |s|
  {
    if s == [] || IsSpace(s[0]) then [] else [s[0]] + Word(s[1..])
  }

  /** `s.split()`: the maximal runs of non-whitespace characters of `s`, in order. */
  function Split(s: string): (r: seq<string>)
    ensures forall i :: 0 <= i < |r| ==> r[i] != [] && Unspaced(r[i])
    decreases |s|
  {
    var t := TrimStart(s, Spaces);
    if t == [] then []
    else
      var w := Word(t);
      [w] + Split(t[|w|..])
  }

  /** Tokens joined by single spaces, as `" ".join(ws)`. */
  function JoinSpaced(ws: seq<string>): string
    decreases |ws|
  {
    if ws == [] then [] else if |ws| == 1 then ws[0] else ws[0] + " " + JoinSpaced(ws[1..])
  }

  lemma {:induction false} WordOf(w: string, rest: string)
    requires Unspaced(w)
    requires rest == [] || IsSpace(rest[0])
    ensures Word(w + rest) == w
    decreases |w|
  {
    if w == [] {
      assert w + rest == rest;
    } else {
      assert (w + rest)[1..] == w[1..] + rest;
      WordOf(w[1..], rest);
      assert w == [w[0]] + w[1..];
    }
  }

  lemma SplitWord(w: string, rest: string)
    requires w != [] && Unspaced(w)
    requires rest == [] || IsSpace(rest[0])
    ensures Split(w + rest) == [w] + Split(rest)
  {
    var s := w + rest;
    assert TrimStart(s, Spaces) == s;
    WordOf(w, rest);
    assert s[|w|..] == rest;
  }

  lemma SplitSpace(x: string)
    ensures Split(" " + x) == Split(x)
  {
    assert (" " + x)[1..] == x;
    assert TrimStart(" " + x, Spaces) == TrimStart(x, Spaces);
  }

  lemma SplitEmpty()
    ensures Split([]) == []
  {
    assert TrimStart([], Spaces) == [];
  }

  lemma SplitJoinStep(w: string, rest: seq<string>)
    requires w != [] && Unspaced(w) && rest != []
    requires Split(JoinSpaced(rest)) == rest
    ensures Split(JoinSpaced([w] + rest)) == [w] + rest
  {
    var tail := JoinSpaced(rest);
    assert ([w] + rest)[1..] == rest;
    assert JoinSpaced([w] + rest) == w + " " + tail;
    assert w + " " + tail == w + (" " + tail);
    SplitSpace(tail);
    SplitWord(w, " " + tail);
  }

  lemma SplitJoinOne(w: string)
    requires w != [] && Unspaced(w)
    ensures Split(JoinSpaced([w])) == [w]
  {
    SplitEmpty();
    SplitWord(w, []);
    assert w + [] == w;
  }

  /** Splitting tokens joined by single spaces gives the tokens back. */
  lemma {:induction false} SplitJoin(ws: seq<string>)
    requires forall i :: 0 <= i < |ws| ==> ws[i] != [] && Unspaced(ws[i])
    ensures Split(JoinSpaced(ws)) == ws
    decreases |ws|
  {
    if ws == [] {
      SplitEmpty();
    } else {
      var w, rest := ws[0], ws[1..];
      assert ws == [w] + rest;
      assert w != [] && Unspaced(w);
      if rest == [] {
        SplitJoinOne(w);
      } else {
        assert forall i :: 0 <= i < |rest| ==> rest[i] == ws[i + 1];
        SplitJoin(rest);
        SplitJoinStep(w, rest);
      }
    }
  }

  /** Every character of `s` is whitespace. */
  predicate AllSpace(s: string)
  {
    forall i :: 0 <= i < |s| ==> IsSpace(s[i])
  }

  /** Non-empty tokens without whitespace, as `split()` yields them. */
  predicate Tokens(toks: seq<string>)
  {
    forall i :: 0 <= i < |toks| ==> toks[i] != [] && Unspaced(toks[i])
  }

  /** The tokens with `seps[i]` before token `i` and `seps[|toks|]` after the last. */
  function Interleave(seps: seq<string>, toks: seq<string>): string
    requires |seps| == |toks| + 1
    decreases |toks|
  {
    if toks == [] then seps[0] else seps[0] + toks[0] + Interleave(seps[1..], toks[1..])
  }

  /**
    `s` is `toks` laid out between the whitespace runs `seps`: the runs at
    either end may be empty, those between two tokens may not.
   */
  ghost predicate LaidOut(s: string, toks: seq<string>, seps: seq<string>)
  {
    && |seps| == |toks| + 1
    && (forall i :: 0 <= i < |seps| ==> AllSpace(seps[i]))
    && (forall i :: 0 < i < |toks| ==> seps[i] != [])
    && s == Interleave(seps, toks)
  }

  /** Dropping the leading whitespace of a string that is nothing but whitespace leaves nothing. */
  lemma AllSpaceTrims(s: string)
    requires AllSpace(s)
    ensures TrimStart(s, Spaces) == []
  {
  }

  /** Leading whitespace before a non-space character is dropped, and nothing more. */
  lemma {:induction false} TrimSpacesBefore(sp: string, x: string)
    requires AllSpace(sp) && x != [] && !IsSpace(x[0])
    ensures TrimStart(sp + x, Spaces) == x
    decreases |sp|
  {
    if sp == [] {
      assert sp + x == x;
    } else {
      assert sp + x == [sp[0]] + (sp[1..] + x);
      TrimStartDrops(sp[0], sp[1..] + x, Spaces);
      TrimSpacesBefore(sp[1..], x);
    }
  }

  /** A laid-out string starts with its first run, or with the first token when that run is empty. */
  lemma InterleaveStart(seps: seq<string>, toks: seq<string>)
    requires |seps| == |toks| + 1 && toks != [] && toks[0] != []
    ensures Interleave(seps, toks) != []
    ensures Interleave(seps, toks)[0] == if seps[0] != [] then seps[0][0] else toks[0][0]
  {
  }

  /** The whitespace `TrimStart` drops is a prefix of `s`. */
  lemma TrimmedPrefix(s: string)
    ensures var t := TrimStart(s, Spaces);
      AllSpace(s[..|s| - |t|]) && s == s[..|s| - |t|] + t
  {
    var t := TrimStart(s, Spaces);
    assert s == s[..|s| - |t|] + t;
  }

  /** One step of `split()`: the first token, and the rest. */
  lemma SplitStep(s: string)
    ensures var t := TrimStart(s, Spaces);
      && (t == [] ==> Split(s) == [])
      && (t != [] ==> Word(t) != [] && t == Word(t) + t[|Word(t)|..] && Split(s) == [Word(t)] + Split(t[|Word(t)|..]))
  {
    var t := TrimStart(s, Spaces);
    if t != [] {
      var w := Word(t);
      assert t == w + t[|w|..];
    }
  }

  /** A laid-out string followed by whitespace, a token, and a whitespace-led rest. */
  lemma LayoutCons(pre: string, w: string, rest: string, toks: seq<string>, more: seq<string>)
    requires AllSpace(pre) && w != []
    requires LaidOut(rest, toks, more)
    requires rest == [] || IsSpace(rest[0])
    requires Tokens(toks)
    ensures LaidOut(pre + w + rest, [w] + toks, [pre] + more)
  {
    var seps := [pre] + more;
    if toks != [] && more[0] == [] {
      InterleaveStart(more, toks);
    }
    assert seps[1..] == more && ([w] + toks)[1..] == toks;
  }

  lemma Associative(a: string, b: string, c: string)
    ensures a + b + c == a + (b + c)
  {
  }

  /** `split()` takes `s` apart into tokens laid out between whitespace runs. */
  lemma {:induction false} SplitLayout(s: string)
    ensures exists seps :: LaidOut(s, Split(s), seps)
    decreases |s|
  {
    TrimmedPrefix(s);
    SplitStep(s);
    var t := TrimStart(s, Spaces);
    var pre := s[..|s| - |t|];
    if t == [] {
      assert s == pre;
      assert LaidOut(s, Split(s), [s]);
    } else {
      var w := Word(t);
      var rest := t[|w|..];
      assert rest == [] || IsSpace(rest[0]) by {
        if rest != [] {
          assert rest[0] == t[|w|];
        }
      }
      SplitLayout(rest);
      var more :| LaidOut(rest, Split(rest), more);
      LayoutCons(pre, w, rest, Split(rest), more);
      Associative(pre, w, rest);
      assert LaidOut(s, Split(s), [pre] + more);
    }
  }

  /** Splitting whitespace, a token and a whitespace-led rest yields the token, then the rest's tokens. */
  lemma SplitAfterSpaces(sp: string, w: string, rest: string)
    requires AllSpace(sp) && w != [] && Unspaced(w)
    requires rest == [] || IsSpace(rest[0])
    ensures Split(sp + w + rest) == [w] + Split(rest)
  {
    var x := w + rest;
    assert sp + w + rest == sp + x;
    TrimSpacesBefore(sp, x);
    WordOf(w, rest);
    SplitStep(sp + x);
    assert x[|w|..] == rest;
  }

  /** The rest of a layout after its first run and token is a layout of the remaining tokens, led by whitespace. */
  lemma LayoutTail(s: string, toks: seq<string>, seps: seq<string>)
    requires LaidOut(s, toks, seps) && toks != [] && forall i :: 0 <= i < |toks| ==> toks[i] != []
    ensures var rest := Interleave(seps[1..], toks[1..]);
      && s == seps[0] + toks[0] + rest
      && LaidOut(rest, toks[1..], seps[1..])
      && (rest == [] || IsSpace(rest[0]))
  {
    var rest := Interleave(seps[1..], toks[1..]);
    if rest != [] && |toks| > 1 {
      InterleaveStart(seps[1..], toks[1..]);
    }
  }

  /** Tokens laid out between whitespace runs are exactly what `split()` gives back. */
  lemma {:induction false} SplitOnly(s: string, toks: seq<string>, seps: seq<string>)
    requires Tokens(toks) && LaidOut(s, toks, seps)
    ensures Split(s) == toks
    decreases |toks|
  {
    if toks == [] {
      AllSpaceTrims(s);
      SplitStep(s);
    } else {
      LayoutTail(s, toks, seps);
      var rest := Interleave(seps[1..], toks[1..]);
      SplitAfterSpaces(seps[0], toks[0], rest);
      SplitOnly(rest, toks[1..], seps[1..]);
      assert toks == [toks[0]] + toks[1..];
    }
  }

  /** The first `)` at or after `i`, provided no line break comes before it (`.` does not match a line break). */
  function CloseFrom(s: string, i: nat): (r: Option<nat>)
    ensures r.Some? ==> i <= r.value < |s| && s[r.value] == ')'
    ensures r.Some? ==> forall k :: i <= k < r.value ==> s[k] != ')' && s[k] != '\n'
    decreases |s| - i
  {
    if i >= |s| || s[i] == '\n' then None
    else if s[i] == ')' then Some(i)
    else CloseFrom(s, i + 1)
  }

  /** `s` holds `(`, then `g`, then `)`, starting at index `a`. */
  predicate Encloses(s: string, a: nat, g: string)
  {
    a + |g| + 2 <= |s| && s[a] == '(' && s[a + 1..a + 1 + |g|] == g && s[a + 1 + |g|] == ')'
  }

  /** A match of `\((.*?)\)` starts at `a`: an opening parenthesis closed before any line break. */
  predicate MatchAt(s: string, a: nat)
  {
    a < |s| && s[a] == '(' && CloseFrom(s, a + 1).Some?
  }

  /** The group of the first match of `\((.*?)\)` starting at or after `p` (`GroupFromFirst` says which match). */
  function GroupFrom(s: string, p: nat): (r: Option<string>)
    ensures r.Some? ==> ')' !in r.value && '\n' !in r.value
    ensures r.Some? ==> exists a :: p <= a && Encloses(s, a, r.value)
    decreases |s| - p
  {
    if p >= |s| then None
    else if s[p] == '(' && CloseFrom(s, p + 1).Some? then
      var q := CloseFrom(s, p + 1).value;
      var g := s[p + 1..q];
      assert Encloses(s, p, g);
      Some(g)
    else GroupFrom(s, p + 1)
  }

  /** The match at `a` is the leftmost one from `p` on. */
  predicate LeftmostMatch(s: string, p: nat, a: nat)
  {
    p <= a && MatchAt(s, a) && forall b :: p <= b < a ==> !MatchAt(s, b)
  }

  /**
    There is no group exactly when no `(` from `p` on is closed before a
    line break; otherwise the group is the text between the leftmost such
    `(` and the first `)` after it.
   */
  lemma {:induction false} GroupFromFirst(s: string, p: nat)
    ensures GroupFrom(s, p).None? <==> forall a :: p <= a < |s| ==> !MatchAt(s, a)
    ensures GroupFrom(s, p).Some? ==>
      exists a: nat :: LeftmostMatch(s, p, a) && GroupFrom(s, p).value == s[a + 1..CloseFrom(s, a + 1).value]
    decreases |s| - p
  {
    if p < |s| {
      if MatchAt(s, p) {
        assert LeftmostMatch(s, p, p);
      } else {
        GroupFromFirst(s, p + 1);
        if GroupFrom(s, p).Some? {
          var a: nat :| LeftmostMatch(s, p + 1, a) && GroupFrom(s, p + 1).value == s[a + 1..CloseFrom(s, a + 1).value];
          assert LeftmostMatch(s, p, a);
        }
      }
    }
  }

  /** `re.findall(r"\((.*?)\)", s)[0]`, or `None` where that index would fail. */
  function FirstGroup(s: string): Option<string>
  {
    GroupFrom(s, 0)
  }

  lemma {:induction false} CloseScan(s: string, i: nat, q: nat)
    requires i <= q < |s| && s[q] == ')'
    requires forall k :: i <= k < q ==> s[k] != ')' && s[k] != '\n'
    ensures CloseFrom(s, i) == Some(q)
    decreases q - i
  {
    if i < q {
      CloseScan(s, i + 1, q);
    }
  }

  lemma {:induction false} GroupSkip(s: string, p: nat, a: nat)
    requires p <= a <= |s|
    requires forall k :: p <= k < a ==> s[k] != '('
    ensures GroupFrom(s, p) == GroupFrom(s, a)
    decreases a - p
  {
    if p < a {
      GroupSkip(s, p + 1, a);
    }
  }

  /** The first match opens at `a` and closes at `q` when no `(` comes before `a` and nothing in between ends it early. */
  lemma FirstGroupAt(s: string, a: nat, q: nat)
    requires a < q < |s| && s[a] == '(' && s[q] == ')'
    requires forall k :: 0 <= k < a ==> s[k] != '('
    requires forall k :: a < k < q ==> s[k] != ')' && s[k] != '\n'
    ensures FirstGroup(s) == Some(s[a + 1..q])
  {
    GroupSkip(s, 0, a);
    CloseScan(s, a + 1, q);
  }

  /** The first parenthesised span is found when nothing before it opens a parenthesis. */
  lemma FirstGroupOf(pre: string, inner: string, post: string)
    requires '(' !in pre
    requires ')' !in inner && '\n' !in inner
    ensures FirstGroup(pre + "(" + inner + ")" + post) == Some(inner)
  {
    var closed := inner + [')'] + post;
    var s := pre + ['('] + closed;
    assert pre + "(" + inner + ")" + post == s;
    var a := |pre|;
    var q := a + 1 + |inner|;
    forall k | 0 <= k < a ensures s[k] != '(' {
      assert s[k] == pre[k];
    }
    forall k | a < k < q ensures s[k] != ')' && s[k] != '\n' {
      assert s[k] == closed[k - a - 1] == inner[k - a - 1];
    }
    assert s[q] == closed[|inner|] == ')';
    assert s[a + 1..q] == closed[..|inner|] == inner;
    FirstGroupAt(s, a, q);
  }

  lemma UnspacedHasNoLineBreak(s: string)
    requires Unspaced(s)
    ensures '\n' !in s
  {
  }
}
