/** The label rewrite of the database history entries: the .NET regular
    expression `(.+?)(\[.+\])` applied with `Regex.Match`, whose groups are
    reassembled as `group2 + " " + group1`.

    In .NET `.` matches any character except '\n'. `Match` returns the
    leftmost match; at that start the lazy `.+?` takes the shortest group 1
    for which the rest can match, and the greedy `.+` then takes the longest
    bracket body. A failed match reports both groups as empty strings. */
module LabelParser {
  import opened Options

  /** A match: group 1 is `text[start..open]`, group 2 is
      `text[open..close + 1]` (from the '[' to the ']', both included). */
  datatype LabelMatch = LabelMatch(start: nat, open: nat, close: nat)

  predicate NoNewline(s: string)
  {
    '\n' !in s
  }

  /** The pattern matches `text` from `start` with these group bounds:
      `.+?` is `text[start..open]`, `\[` is at `open`, `.+` is
      `text[open + 1..close]` and `\]` is at `close`. */
  predicate IsMatchAt(text: string, start: int, open: int, close: int)
  {
    0 <= start < open && open + 2 <= close < |text|
    && NoNewline(text[start..open]) && text[open] == '['
    && NoNewline(text[open + 1..close]) && text[close] == ']'
  }

  /** The match `Regex.Match` reports: the leftmost start, then the shortest
      group 1, then the longest group 2. */
  ghost predicate IsLeftmostMatch(text: string, m: LabelMatch)
  {
    && IsMatchAt(text, m.start, m.open, m.close)
    && (forall s, o, c :: 0 <= s < m.start ==> !IsMatchAt(text, s, o, c))
    && (forall o, c :: o < m.open ==> !IsMatchAt(text, m.start, o, c))
    && (forall c :: m.close < c ==> !IsMatchAt(text, m.start, m.open, c))
  }

  /** The largest `k` in `[lo, hi)` with `text[k] == ']'`, or -1. */
  function LastClose(text: string, lo: int, hi: int): (r: int)
    requires 0 <= lo && hi <= |text|
    ensures r == -1 || (lo <= r < hi && text[r] == ']')
    ensures forall k :: lo <= k < hi && r < k ==> text[k] != ']'
    decreases hi - lo
  {
    if hi <= lo then -1
    else if text[hi - 1] == ']' then hi - 1
    else LastClose(text, lo, hi - 1)
  }

  /** The first index at or after `p` that holds '\n', or `|text|`. */
  function LineEnd(text: string, p: nat): (e: nat)
    requires p <= |text|
    ensures p <= e <= |text|
    ensures forall i :: p <= i < e ==> text[i] != '\n'
    ensures e == |text| || text[e] == '\n'
    decreases |text| - p
  {
    if p == |text| || text[p] == '\n' then p else LineEnd(text, p + 1)
  }

  /** Where `\]` lands after the '[' at `open`: the last ']' on its line that
      leaves `.+` at least one character, or -1. */
  function CloseFor(text: string, open: nat): int
    requires open < |text|
  {
    LastClose(text, open + 2, LineEnd(text, open + 1))
  }

  /** The lazy `(.+?)\[` from `start`, trying `open`, `open + 1`, ... while
      group 1 stays on one line. */
  function OpenFrom(text: string, start: nat, open: nat): Option<LabelMatch>
    requires start < open <= |text|
    decreases |text| - open
  {
    if open == |text| || text[open - 1] == '\n' then None
    else if text[open] == '[' && CloseFor(text, open) >= 0 then
      Some(LabelMatch(start, open, CloseFor(text, open)))
    else OpenFrom(text, start, open + 1)
  }

  /** The regex search from `start` onwards. */
  function MatchFrom(text: string, start: nat): Option<LabelMatch>
    requires start <= |text|
    decreases |text| - start
  {
    if start == |text| then None
    else
      match OpenFrom(text, start, start + 1)
      case Some(m) => Some(m)
      case None => MatchFrom(text, start + 1)
  }

  /** `workspaceLabelParser.Match(label)`: no match exactly when the pattern
      matches nowhere; otherwise the leftmost, lazy-then-greedy match. */
  function Match(text: string): (r: Option<LabelMatch>)
    ensures r.None? <==> forall s, o, c :: !IsMatchAt(text, s, o, c)
    ensures r.Some? ==> IsLeftmostMatch(text, r.value)
  {
    MatchFromIsLeftmost(text, 0);
    MatchFrom(text, 0)
  }

  /** `Groups[1]` and `Groups[2]` of the match, both empty without one. */
  function Groups(text: string): (string, string)
  {
    match Match(text)
    case None => ("", "")
    case Some(m) => (text[m.start..m.open], text[m.open..m.close + 1])
  }

  /** The label stored on a database record: `$"{Groups[2]} {Groups[1]}"`. */
  function WorkspaceLabel(text: string): string
  {
    Groups(text).1 + " " + Groups(text).0
  }

  lemma CloseForIsGreedy(text: string, open: nat)
    requires open < |text|
    ensures CloseFor(text, open) >= 0 ==>
      && open + 2 <= CloseFor(text, open) < |text|
      && NoNewline(text[open + 1..CloseFor(text, open)])
      && text[CloseFor(text, open)] == ']'
    ensures forall c ::
      (CloseFor(text, open) < c && open + 2 <= c < |text| && NoNewline(text[open + 1..c]))
      ==> text[c] != ']'
  {
  }

  lemma {:induction false} OpenFromIsLazy(text: string, start: nat, open: nat)
    requires start < open <= |text|
    requires NoNewline(text[start..open - 1])
    ensures OpenFrom(text, start, open).None? ==>
      forall o, c :: open <= o ==> !IsMatchAt(text, start, o, c)
    ensures OpenFrom(text, start, open).Some? ==>
      var m := OpenFrom(text, start, open).value;
      && m.start == start && open <= m.open
      && IsMatchAt(text, start, m.open, m.close)
      && (forall o, c :: open <= o < m.open ==> !IsMatchAt(text, start, o, c))
      && (forall c :: m.close < c ==> !IsMatchAt(text, start, m.open, c))
    decreases |text| - open
  {
    if open == |text| {
    } else if text[open - 1] == '\n' {
      forall o, c | open <= o
        ensures !IsMatchAt(text, start, o, c)
      {
        if o <= |text| {
          assert text[start..o][open - 1 - start] == text[open - 1];
        }
      }
    } else {
      assert NoNewline(text[start..open]) by {
        assert text[start..open] == text[start..open - 1] + [text[open - 1]];
      }
      CloseForIsGreedy(text, open);
      if text[open] == '[' && CloseFor(text, open) >= 0 {
      } else {
        assert forall c :: !IsMatchAt(text, start, open, c);
        OpenFromIsLazy(text, start, open + 1);
      }
    }
  }

  lemma {:induction false} MatchFromIsLeftmost(text: string, start: nat)
    requires start <= |text|
    ensures MatchFrom(text, start).None? ==>
      forall s, o, c :: start <= s ==> !IsMatchAt(text, s, o, c)
    ensures MatchFrom(text, start).Some? ==>
      var m := MatchFrom(text, start).value;
      && start <= m.start
      && IsMatchAt(text, m.start, m.open, m.close)
      && (forall s, o, c :: start <= s < m.start ==> !IsMatchAt(text, s, o, c))
      && (forall o, c :: o < m.open ==> !IsMatchAt(text, m.start, o, c))
      && (forall c :: m.close < c ==> !IsMatchAt(text, m.start, m.open, c))
    decreases |text| - start
  {
    if start < |text| {
      OpenFromIsLazy(text, start, start + 1);
      if OpenFrom(text, start, start + 1).None? {
        MatchFromIsLeftmost(text, start + 1);
      }
    }
  }

  /** A '[' at `open` (not the first character) and a ']' at least two
      positions later. */
  predicate IsBracketPair(text: string, open: int, close: int)
  {
    1 <= open && open + 2 <= close < |text| && text[open] == '[' && text[close] == ']'
  }

  /** The leftmost match is determined by its defining property. */
  lemma LeftmostMatchUnique(text: string, m: LabelMatch, m': LabelMatch)
    requires IsLeftmostMatch(text, m) && IsLeftmostMatch(text, m')
    ensures m == m'
  {
  }

  /** The rewritten label is exactly " " when the pattern does not match,
      and otherwise starts with the bracketed group 2. */
  lemma WorkspaceLabelOnNoMatch(text: string)
    ensures WorkspaceLabel(text) == " " <==> forall s, o, c :: !IsMatchAt(text, s, o, c)
    ensures Match(text).Some? ==> WorkspaceLabel(text)[0] == '['
  {
  }

  /** On a label without '\n' the match starts at 0: group 1 is the prefix up
      to the first '[' at index 1 or later that has a ']' two or more
      positions after it, and group 2 runs from there to the last ']'. */
  lemma SingleLineLabel(text: string)
    requires NoNewline(text)
    ensures Match(text).None? <==> forall o, c :: !IsBracketPair(text, o, c)
    ensures Match(text).Some? ==>
      var m := Match(text).value;
      && m.start == 0
      && IsBracketPair(text, m.open, m.close)
      && (forall o, c :: o < m.open ==> !IsBracketPair(text, o, c))
      && (forall c :: m.close < c < |text| ==> text[c] != ']')
      && WorkspaceLabel(text) == text[m.open..m.close + 1] + " " + text[..m.open]
  {
    forall s, o, c | 0 <= s <= o <= c <= |text|
      ensures NoNewline(text[s..o]) && NoNewline(text[o..c])
    {
      assert forall i :: 0 <= i < o - s ==> text[s..o][i] == text[s + i];
      assert forall i :: 0 <= i < c - o ==> text[o..c][i] == text[o + i];
    }
    assert forall o, c :: IsBracketPair(text, o, c) <==> IsMatchAt(text, 0, o, c);
    if Match(text).Some? {
      var m := Match(text).value;
      assert IsMatchAt(text, 0, m.open, m.close);
      assert forall c :: m.close < c < |text| && text[c] == ']' ==> IsMatchAt(text, 0, m.open, c);
    }
  }

  /** A label of the form `name[body]`, with no '[' in `name` and no line
      break, becomes `[body] name`: group 1 is all of `name`, including any
      space before the '[', so "MyProj [WSL: Ubuntu]" becomes
      "[WSL: Ubuntu] MyProj ". */
  lemma BracketSuffixLabel(name: string, body: string)
    requires |name| >= 1 && |body| >= 1
    requires NoNewline(name) && NoNewline(body) && '[' !in name
    ensures WorkspaceLabel(name + "[" + body + "]") == "[" + body + "]" + " " + name
  {
    var text := name + "[" + body + "]";
    var open, close := |name|, |text| - 1;
    assert NoNewline(text);
    SingleLineLabel(text);
    assert text[open] == '[' && text[close] == ']';
    assert IsBracketPair(text, open, close);
    var m := Match(text).value;
    forall i | 0 <= i < open
      ensures text[i] != '['
    {
      assert text[i] == name[i] && name[i] in name;
    }
    assert m.close == close;
    assert text[..open] == name;
    assert text[open..close + 1] == "[" + body + "]";
  }

  /** A label without '[' becomes a single space, not an absent label. */
  lemma NoBracketLabel(text: string)
    requires '[' !in text
    ensures WorkspaceLabel(text) == " "
  {
  }
}
