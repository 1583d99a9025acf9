/** The tips list: `parseDynamicList`, which turns the agent's free-text
    answer into title/description pairs, and the text the copy button puts
    on the clipboard. Both regular expressions are modelled by hand, in the
    order ECMAScript's backtracking tries their alternatives. */
module Tips {
  import opened Options
  import opened JsText
  import opened JsNumber

  datatype Tip = Tip(title: string, description: string)

  /** Length of the run of `c` at the start of `s`. */
  function RunOf(s: string, c: char): (n: nat)
    ensures n <= |s|
    ensures forall i | 0 <= i < n :: s[i] == c
    ensures n == |s| || s[n] != c
  {
    if |s| > 0 && s[0] == c then 1 + RunOf(s[1..], c) else 0
  }

  /** `s.split(/\n+/)`: the pieces between maximal runs of line feeds. A
      run at either end leaves an empty piece there; inner pieces are never
      empty. */
  function SplitNewlineRuns(s: string): (pieces: seq<string>)
    ensures |pieces| >= 1
    ensures forall i | 0 <= i < |pieces| :: '\n' !in pieces[i]
    ensures forall i | 0 < i < |pieces| - 1 :: pieces[i] != ""
    ensures |s| > 0 && s[0] != '\n' ==> pieces[0] != ""
    decreases |s|
  {
    if '\n' !in s then [s]
    else
      var i := IndexOf(s, '\n');
      var j := i + RunOf(s[i..], '\n');
      assert j == |s| || s[j] != '\n';
      [s[..i]] + SplitNewlineRuns(s[j..])
  }

  /** `.map(line => line.trim()).filter(line => line.length > 0)`. */
  function NonBlankLines(pieces: seq<string>): (lines: seq<string>)
    ensures |lines| <= |pieces|
    ensures forall i | 0 <= i < |lines| :: lines[i] != "" && IsTrimmed(lines[i])
  {
    if |pieces| == 0 then []
    else
      var t := Trim(pieces[0]);
      (if t == "" then [] else [t]) + NonBlankLines(pieces[1..])
  }

  /** Lines cut from pieces without line feeds have none either. */
  lemma {:induction false} NonBlankLinesOneLine(pieces: seq<string>)
    requires forall i | 0 <= i < |pieces| :: '\n' !in pieces[i]
    ensures forall i | 0 <= i < |NonBlankLines(pieces)| :: '\n' !in NonBlankLines(pieces)[i]
    decreases |pieces|
  {
    if |pieces| > 0 {
      TrimNoNewline(pieces[0]);
      NonBlankLinesOneLine(pieces[1..]);
    }
  }

  /** Where the run of white space that starts at `i` ends. */
  function SpaceEnd(s: string, i: nat): (j: nat)
    requires i <= |s|
    ensures i <= j <= |s|
    ensures forall p | i <= p < j :: IsWhiteSpace(s[p])
    ensures j == |s| || !IsWhiteSpace(s[j])
    decreases |s| - i
  {
    if i < |s| && IsWhiteSpace(s[i]) then SpaceEnd(s, i + 1) else i
  }

  /** Where the run of decimal digits that starts at `i` ends. */
  function DigitEnd(s: string, i: nat): (j: nat)
    requires i <= |s|
    ensures i <= j <= |s|
    ensures forall p | i <= p < j :: IsDecimalDigit(s[p])
    ensures j == |s| || !IsDecimalDigit(s[j])
    decreases |s| - i
  {
    if i < |s| && IsDecimalDigit(s[i]) then DigitEnd(s, i + 1) else i
  }

  /** Length of what the list-marker pattern `^\s*(\d+\.\s*|\-\s*|\*\s*)`
      matches at the start of `line`, 0 when it does not match. Each `\s*`
      and `\d+` is greedy, and giving characters back cannot make a later
      part match, so the first attempt decides. */
  function MarkerLength(line: string): (n: nat)
    ensures n <= |line|
    ensures n > 0 ==> exists k | 0 <= k < n :: line[k] == '.' || line[k] == '-' || line[k] == '*'
  {
    var w := SpaceEnd(line, 0);
    var d := DigitEnd(line, w);
    if w < d < |line| && line[d] == '.' then SpaceEnd(line, d + 1)
    else if w < |line| && (line[w] == '-' || line[w] == '*') then SpaceEnd(line, w + 1)
    else 0
  }

  /** `line.replace(marker, "")`: the line without its list marker. */
  function StripMarker(line: string): (clean: string)
    ensures |clean| <= |line| && clean == line[|line| - |clean|..]
  {
    line[MarkerLength(line)..]
  }

  /** A list marker: `-`, `*`, or decimal digits followed by a full stop. */
  predicate IsMarker(m: string) {
    || m == "-" || m == "*"
    || (|m| >= 2 && m[|m| - 1] == '.' && forall i | 0 <= i < |m| - 1 :: IsDecimalDigit(m[i]))
  }

  /** Exactly one marker goes, with the white space around it, whatever
      follows it (even another marker). */
  lemma StripOneMarker(space: string, m: string, gap: string, text: string)
    requires AllWhiteSpace(space) && AllWhiteSpace(gap) && IsMarker(m)
    requires text == "" || !IsWhiteSpace(text[0])
    ensures StripMarker(space + m + gap + text) == text
  {
    FourParts(space, m, gap, text);
    StripMarkedLine(space + m + gap + text, space, m, gap, text);
  }

  /** Where the four parts of `a + b + c + d` sit. */
  lemma FourParts<T>(a: seq<T>, b: seq<T>, c: seq<T>, d: seq<T>)
    ensures var s, j := a + b + c + d, |a| + |b|;
            && s[..|a|] == a && s[|a|..j] == b && s[j..j + |c|] == c && s[j + |c|..] == d
  {
    var s, j := a + b + c + d, |a| + |b|;
    assert s == a + (b + (c + d)) && s == (a + b) + (c + d);
    assert s[..|a|] == a && s[|a|..j] == b;
  }

  /** The same on a line given by where its parts sit. */
  lemma StripMarkedLine(line: string, space: string, m: string, gap: string, text: string)
    requires |space| + |m| + |gap| <= |line|
    requires line[..|space|] == space && line[|space|..|space| + |m|] == m
    requires line[|space| + |m|..|space| + |m| + |gap|] == gap
    requires line[|space| + |m| + |gap|..] == text
    requires AllWhiteSpace(space) && AllWhiteSpace(gap) && IsMarker(m)
    requires text == "" || !IsWhiteSpace(text[0])
    ensures StripMarker(line) == text
  {
    var w, v, g := |space|, |space| + |m|, |gap|;
    SpaceBefore(line, space, m);
    SpaceAfter(line, v, gap, text);
    StripMarkerAt(line, w, m, v + g, text);
  }

  /** A marker `m` at `w`, after the line's white space and before white
      space that runs up to `n`, goes with that white space. */
  lemma StripMarkerAt(line: string, w: nat, m: string, n: nat, rest: string)
    requires IsMarker(m) && w + |m| <= |line| && line[w..w + |m|] == m
    requires SpaceEnd(line, 0) == w && SpaceEnd(line, w + |m|) == n && line[n..] == rest
    ensures StripMarker(line) == rest
  {
    if |m| == 1 {
      SymbolOf(line, w, m);
      MarkerSpan(line, w, w, n, rest);
    } else {
      DigitsOf(line, w, m);
      MarkerSpan(line, w, w + |m| - 1, n, rest);
    }
  }

  /** The marker pattern, found by position: white space up to `w`, then
      either `-` or `*` (with `d == w`) or digits up to a full stop at `d`,
      then white space up to `n`; what follows is `rest`. */
  lemma MarkerSpan(line: string, w: nat, d: nat, n: nat, rest: string)
    requires w <= d < |line| && SpaceEnd(line, 0) == w && DigitEnd(line, w) == d
    requires if d == w then line[w] == '-' || line[w] == '*' else line[d] == '.'
    requires SpaceEnd(line, d + 1) == n && line[n..] == rest
    ensures StripMarker(line) == rest
  {
  }

  /** A `-` or `*` marker is no digit. */
  lemma SymbolOf(line: string, w: nat, m: string)
    requires IsMarker(m) && |m| == 1 && w + 1 <= |line| && line[w..w + 1] == m
    ensures DigitEnd(line, w) == w && (line[w] == '-' || line[w] == '*')
  {
    assert line[w] == m[0];
  }

  /** The white space before a marker ends where the marker starts. */
  lemma SpaceBefore(line: string, space: string, m: string)
    requires |space| + |m| <= |line| && IsMarker(m) && AllWhiteSpace(space)
    requires line[..|space|] == space && line[|space|..|space| + |m|] == m
    ensures SpaceEnd(line, 0) == |space|
  {
    forall p | 0 <= p < |space|
      ensures IsWhiteSpace(line[p])
    {
      assert line[p] == line[..|space|][p];
    }
    assert line[|space|] == m[0];
    SpaceEndIs(line, 0, |space|);
  }

  /** The white space after a marker ends where the text starts. */
  lemma SpaceAfter(line: string, v: nat, gap: string, text: string)
    requires v + |gap| <= |line| && AllWhiteSpace(gap)
    requires line[v..v + |gap|] == gap && line[v + |gap|..] == text
    requires text == "" || !IsWhiteSpace(text[0])
    ensures SpaceEnd(line, v) == v + |gap|
  {
    forall p | v <= p < v + |gap|
      ensures IsWhiteSpace(line[p])
    {
      assert line[p] == line[v..v + |gap|][p - v];
    }
    assert v + |gap| < |line| ==> line[v + |gap|] == text[0];
    SpaceEndIs(line, v, v + |gap|);
  }

  /** The digits of a numbered marker end at its full stop. */
  lemma DigitsOf(line: string, w: nat, m: string)
    requires IsMarker(m) && |m| != 1
    requires w + |m| <= |line| && line[w..w + |m|] == m
    ensures |m| >= 2 && DigitEnd(line, w) == w + |m| - 1 && line[w + |m| - 1] == '.'
  {
    forall p | w <= p < w + |m| - 1
      ensures IsDecimalDigit(line[p])
    {
      assert line[p] == m[p - w];
    }
    assert line[w + |m| - 1] == m[|m| - 1];
    DigitEndIs(line, w, w + |m| - 1);
  }

  /** A run of white space from `i` to `j` that stops at `j`. */
  lemma {:induction false} SpaceEndIs(s: string, i: nat, j: nat)
    requires i <= j <= |s| && (forall p | i <= p < j :: IsWhiteSpace(s[p]))
    requires j == |s| || !IsWhiteSpace(s[j])
    ensures SpaceEnd(s, i) == j
    decreases j - i
  {
    if i < j {
      SpaceEndIs(s, i + 1, j);
    }
  }

  /** A run of digits from `i` to `j` that stops at `j`. */
  lemma {:induction false} DigitEndIs(s: string, i: nat, j: nat)
    requires i <= j <= |s| && (forall p | i <= p < j :: IsDecimalDigit(s[p]))
    requires j == |s| || !IsDecimalDigit(s[j])
    ensures DigitEnd(s, i) == j
    decreases j - i
  {
    if i < j {
      DigitEndIs(s, i + 1, j);
    }
  }

  /** A line that starts with no white space, no digit and no `-` or `*`
      keeps all of its text. */
  lemma NoMarkerKept(line: string)
    requires line == "" || (!IsWhiteSpace(line[0]) && !IsDecimalDigit(line[0]) && line[0] != '-' && line[0] != '*')
    ensures StripMarker(line) == line
  {
  }

  /** The characters `[^*:\-]` admits into the title group. */
  predicate InTitleClass(c: char) {
    c != '*' && c != ':' && c != '-'
  }

  /** The separator class `[:\-—]`. */
  predicate IsSeparator(c: char) {
    c == ':' || c == '-' || c == EmDash
  }

  const EmDash: char := '\U{2014}'


  predicate NoSeparator(s: string) {
    forall i | 0 <= i < |s| :: !IsSeparator(s[i])
  }

  /** Where the rest of the tip pattern, `\*{0,2}\s*[:\-—]\s*(.*)$`, matches
      from position `p` of `clean`: the start of the second group, or `None`.
      The stars and the white space are taken greedily; giving any back
      only puts a star or a space where the separator must be, so the first
      attempt decides. `.` matches no line terminator, so the second group
      must run to the end without one. */
  function TailAt(clean: string, p: nat): (r: Option<nat>)
    requires p <= |clean|
    ensures r.Some? ==> p < r.value <= |clean| && NoLineTerminator(clean[r.value..])
    ensures r.Some? ==> exists q | p <= q < r.value :: IsSeparator(clean[q])
  {
    var stars := RunOf(clean[p..], '*');
    var b := if stars < 2 then stars else 2;
    var q := p + b + LeadingSpace(clean[p + b..]);
    if q < |clean| && IsSeparator(clean[q]) then
      var start := q + 1 + LeadingSpace(clean[q + 1..]);
      if NoLineTerminator(clean[start..]) then
        assert p <= q < start && IsSeparator(clean[q]);
        Some(start)
      else None
    else None
  }

  /** Length of the run of characters of the title class at the start of
      `s`: how far the title group can reach at most. */
  function ClassRun(s: string): (n: nat)
    ensures n <= |s|
    ensures forall i | 0 <= i < n :: InTitleClass(s[i])
    ensures n == |s| || !InTitleClass(s[n])
  {
    if |s| > 0 && InTitleClass(s[0]) then 1 + ClassRun(s[1..]) else 0
  }

  /** Which ends of the title group let the rest of the pattern match:
      entry `p` tells whether `TailAt(clean, p)` succeeds. */
  function TailTable(clean: string): (t: seq<bool>)
    ensures |t| == |clean| + 1
    ensures forall p | 0 <= p <= |clean| :: t[p] == TailAt(clean, p).Some?
  {
    seq(|clean| + 1, p requires 0 <= p <= |clean| => TailAt(clean, p).Some?)
  }

  /** The first entry of `table` from `e` up to `limit` that holds. */
  function FirstTrue(table: seq<bool>, e: nat, limit: nat): (r: Option<nat>)
    requires e <= limit < |table|
    ensures r.Some? ==> e <= r.value <= limit && table[r.value]
    decreases limit - e
  {
    if table[e] then Some(e)
    else if e == limit then None
    else FirstTrue(table, e + 1, limit)
  }

  /** `FirstTrue` finds the first entry that holds, and gives up only when
      none does. */
  lemma {:induction false} FirstTrueFirst(table: seq<bool>, e: nat, limit: nat)
    requires e <= limit < |table|
    ensures FirstTrue(table, e, limit).Some? ==>
              forall f | e <= f < FirstTrue(table, e, limit).value :: !table[f]
    ensures FirstTrue(table, e, limit).None? ==> forall f | e <= f <= limit :: !table[f]
    decreases limit - e
  {
    if !table[e] && e < limit {
      FirstTrueFirst(table, e + 1, limit);
    }
  }

  /** An entry that holds after a stretch where none does is the one
      `FirstTrue` finds. */
  lemma {:induction false} FirstTrueAt(table: seq<bool>, e: nat, n: nat)
    requires e <= n < |table| && table[n]
    requires forall f | e <= f < n :: !table[f]
    ensures FirstTrue(table, e, n) == Some(n)
    decreases n - e
  {
    if e < n {
      FirstTrueAt(table, e + 1, n);
    }
  }

  /** The lazy title group `([^*:\-]+?)`: trying its ends in increasing
      order from `e` up to `limit`, the first one after which the rest of the
      pattern matches. */
  function LazyGroupEnd(clean: string, e: nat, limit: nat): (r: Option<nat>)
    requires e <= limit <= |clean|
    ensures r.Some? ==> e <= r.value <= limit && TailAt(clean, r.value).Some?
  {
    FirstTrue(TailTable(clean), e, limit)
  }

  /** The end the lazy group settles on is the first that lets the rest
      match, and there is none when it gives up. */
  lemma LazyGroupEndFirst(clean: string, e: nat, limit: nat)
    requires e <= limit <= |clean|
    ensures LazyGroupEnd(clean, e, limit).Some? ==>
              forall f | e <= f < LazyGroupEnd(clean, e, limit).value :: TailAt(clean, f).None?
    ensures LazyGroupEnd(clean, e, limit).None? ==> forall f | e <= f <= limit :: TailAt(clean, f).None?
  {
    FirstTrueFirst(TailTable(clean), e, limit);
  }

  /** `clean.match(/^\*{0,2}([^*:\-]+?)\*{0,2}\s*[:\-—]\s*(.*)$/)`: the two
      groups, or `None`. The leading `\*{0,2}` is greedy and the group cannot
      start with a star, so the group starts right after the leading stars,
      and there is no match when there are more than two of them. */
  function MatchTip(clean: string): (m: Option<(string, string)>)
    ensures m.Some? ==> m.value.0 != "" && forall i | 0 <= i < |m.value.0| :: InTitleClass(m.value.0[i])
    ensures m.Some? ==> NoLineTerminator(m.value.1)
    ensures m.Some? && '\n' !in clean ==> '\n' !in m.value.0
    ensures NoSeparator(clean) ==> m.None?
    ensures m.Some? ==>
              exists e | RunOf(clean, '*') < e <= |clean| ::
                && m.value.0 == clean[RunOf(clean, '*')..e]
                && TailAt(clean, e).Some? && m.value.1 == clean[TailAt(clean, e).value..]
                && forall f | RunOf(clean, '*') < f < e :: TailAt(clean, f).None?
    ensures m.None? <==>
              || RunOf(clean, '*') > 2
              || forall f | RunOf(clean, '*') < f <= RunOf(clean, '*') + ClassRun(clean[RunOf(clean, '*')..]) ::
                   TailAt(clean, f).None?
  {
    var a := RunOf(clean, '*');
    var limit := a + ClassRun(clean[a..]);
    if a > 2 || limit == a then None
    else
      var end := LazyGroupEnd(clean, a + 1, limit);
      if end.None? then
        assert forall f | a < f <= limit :: TailAt(clean, f).None? by {
          LazyGroupEndFirst(clean, a + 1, limit);
        }
        None
      else
        var e := end.value;
        assert forall f | a < f < e :: TailAt(clean, f).None? by {
          LazyGroupEndFirst(clean, a + 1, limit);
        }
        Some(Groups(clean, a, e))
  }

  /** The two groups once the title group ends at `e`: the title from `a`
      to `e`, and the description from where the rest of the pattern puts
      it. */
  function Groups(clean: string, a: nat, e: nat): (g: (string, string))
    requires a < e <= |clean| && e - a <= ClassRun(clean[a..]) && TailAt(clean, e).Some?
    ensures g.0 == clean[a..e] && g.1 == clean[TailAt(clean, e).value..]
    ensures g.0 != "" && forall i | 0 <= i < |g.0| :: InTitleClass(g.0[i])
    ensures NoLineTerminator(g.1)
    ensures '\n' in g.0 ==> '\n' in clean
  {
    GroupFacts(clean, a, e);
    (clean[a..e], clean[TailAt(clean, e).value..])
  }

  /** The title group ends at the first separator after which the rest of
      the pattern matches, even when a later one would too: in
      "A — B: C" the em dash splits, and the colon stays in the
      description. */
  lemma EmDashSplitsFirst(clean: string)
    requires clean == ['A', ' ', EmDash, ' ', 'B', ':', ' ', 'C']
    ensures MatchTip(clean) == Some(("A", "B: C"))
  {
    assert TailAt(clean, 1) == Some(4) by {
      EmDashTail(clean);
    }
    assert RunOf(clean, '*') == 0 && ClassRun(clean[0..]) >= 1 by {
      assert clean[0..] == clean && InTitleClass(clean[0]);
    }
    var m := MatchTip(clean);
    assert m.Some?;
    assert m.value == (clean[0..1], clean[4..]);
    EmDashPieces(clean);
  }

  lemma EmDashPieces(clean: string)
    requires clean == ['A', ' ', EmDash, ' ', 'B', ':', ' ', 'C']
    ensures clean[0..1] == "A" && clean[4..] == "B: C"
  {
    assert clean[4..] == ['B', ':', ' ', 'C'];
  }

  /** After "A", the rest of the pattern matches: white space, the em
      dash, white space, and the description from index 4 on. */
  lemma EmDashTail(clean: string)
    requires clean == ['A', ' ', EmDash, ' ', 'B', ':', ' ', 'C']
    ensures TailAt(clean, 1) == Some(4)
  {
    assert RunOf(clean[1..], '*') == 0;
    assert LeadingSpace(clean[1..]) == 1 by {
      assert clean[1..][1] == EmDash;
    }
    assert LeadingSpace(clean[3..]) == 1 by {
      assert clean[3..][1] == 'B';
    }
    assert NoLineTerminator(clean[4..]);
  }

  /** A title group stays inside its class and inside the text. */
  lemma GroupFacts(clean: string, a: nat, e: nat)
    requires a < e <= |clean| && e - a <= ClassRun(clean[a..])
    ensures forall i | 0 <= i < |clean[a..e]| :: InTitleClass(clean[a..e][i])
    ensures '\n' in clean[a..e] ==> '\n' in clean
  {
    var g := clean[a..e];
    forall i | 0 <= i < |g|
      ensures InTitleClass(g[i]) && g[i] == clean[a + i]
    {
      assert g[i] == clean[a..][i];
    }
  }

  /** One trimmed, non-empty line to a tip: the two groups trimmed when the
      pattern matches, else the whole cleaned line as the title. */
  function ParseLine(line: string): (t: Tip)
    ensures IsTrimmed(t.title) && IsTrimmed(t.description)
    ensures '\n' !in line ==> '\n' !in t.title && '\n' !in t.description
    ensures MatchTip(StripMarker(line)).Some? ==>
              && (forall i | 0 <= i < |t.title| :: InTitleClass(t.title[i]))
              && NoLineTerminator(t.description)
    ensures NoSeparator(StripMarker(line)) ==> t == Tip(Trim(StripMarker(line)), "")
    ensures MatchTip(StripMarker(line)).Some? ==>
              t == Tip(Trim(MatchTip(StripMarker(line)).value.0), Trim(MatchTip(StripMarker(line)).value.1))
    ensures MatchTip(StripMarker(line)).None? ==> t == Tip(Trim(StripMarker(line)), "")
  {
    var clean := StripMarker(line);
    assert '\n' in clean ==> '\n' in line;
    match MatchTip(clean)
    case Some((g1, g2)) =>
      TrimNoLineTerminator(g2);
      TrimInTitleClass(g1);
      TrimNoNewline(g1);
      Tip(Trim(g1), Trim(g2))
    case None =>
      TrimNoNewline(clean);
      Tip(Trim(clean), "")
  }

  lemma TrimInTitleClass(s: string)
    requires forall i | 0 <= i < |s| :: InTitleClass(s[i])
    ensures forall i | 0 <= i < |Trim(s)| :: InTitleClass(Trim(s)[i])
  {
    var r := Trim(s);
    assert r == s[LeadingSpace(s)..LeadingSpace(s) + |r|];
    forall i | 0 <= i < |r|
      ensures InTitleClass(r[i])
    {
      assert r[i] == s[LeadingSpace(s) + i];
    }
  }

  lemma TrimNoNewline(s: string)
    ensures '\n' in Trim(s) ==> '\n' in s
  {
    if '\n' in Trim(s) {
      TrimKeeps(s, '\n');
    }
  }

  /** `xs.map(f)`. */
  function Map<A, B>(f: A -> B, xs: seq<A>): (ys: seq<B>)
    ensures |ys| == |xs|
    ensures forall i | 0 <= i < |xs| :: ys[i] == f(xs[i])
  {
    if |xs| == 0 then [] else [f(xs[0])] + Map(f, xs[1..])
  }

  lemma {:induction false} MapAppend<A, B>(f: A -> B, p: seq<A>, q: seq<A>)
    ensures Map(f, p + q) == Map(f, p) + Map(f, q)
    decreases |p|
  {
    if |p| > 0 {
      assert (p + q)[1..] == p[1..] + q;
      MapAppend(f, p[1..], q);
    } else {
      assert p + q == q;
    }
  }

  /** `parseDynamicList(rawText)`: titles and descriptions come out trimmed
      and on one line. */
  function Parse(raw: string): (tips: seq<Tip>)
    ensures forall i | 0 <= i < |tips| ::
              && IsTrimmed(tips[i].title) && IsTrimmed(tips[i].description)
              && '\n' !in tips[i].title && '\n' !in tips[i].description
  {
    NonBlankLinesOneLine(SplitNewlineRuns(raw));
    Map(ParseLine, NonBlankLines(SplitNewlineRuns(raw)))
  }

  /** Filtering blank lines commutes with concatenation. */
  lemma {:induction false} NonBlankLinesAppend(p: seq<string>, q: seq<string>)
    ensures NonBlankLines(p + q) == NonBlankLines(p) + NonBlankLines(q)
    decreases |p|
  {
    if |p| == 0 {
      assert p + q == q;
    } else {
      assert (p + q)[0] == p[0] && (p + q)[1..] == p[1..] + q;
      NonBlankLinesAppend(p[1..], q);
    }
  }

  /** Splitting around a separator splits each side. */
  lemma {:induction false} SplitAround(a: string, b: string, sep: char)
    ensures Split(a + [sep] + b, sep) == Split(a, sep) + Split(b, sep)
    decreases |a|
  {
    var s := a + [sep] + b;
    if sep in a {
      var j := IndexOf(a, sep);
      FirstSeparatorKept(a, [sep] + b, sep);
      assert s == a + ([sep] + b);
      assert s[..j] == a[..j];
      assert s[j + 1..] == a[j + 1..] + [sep] + b;
      SplitStep(s, sep);
      SplitStep(a, sep);
      SplitAround(a[j + 1..], b, sep);
      ConsAppend(Split(s, sep), Split(a, sep), a[..j], Split(a[j + 1..], sep), Split(b, sep));
    } else {
      assert s[|a|] == sep && s[..|a|] == a && s[|a| + 1..] == b;
      SplitStep(s, sep);
    }
  }

  /** The first separator of `a` is also the first of `a` followed by
      anything. */
  lemma FirstSeparatorKept(a: string, b: string, sep: char)
    requires sep in a
    ensures IndexOf(a + b, sep) == IndexOf(a, sep)
  {
    var j := IndexOf(a, sep);
    var i := IndexOf(a + b, sep);
    assert (a + b)[j] == sep;
    assert (a + b)[..j] == a[..j];
  }

  /** `[x] + (p + q)` is `([x] + p) + q`, stated on names. */
  lemma ConsAppend<T>(whole: seq<T>, left: seq<T>, x: T, p: seq<T>, q: seq<T>)
    requires whole == [x] + (p + q) && left == [x] + p
    ensures whole == left + q
  {
  }

  /** One step of `Split`: the piece before the first separator, then the
      split of the rest. */
  lemma SplitStep(s: string, sep: char)
    requires sep in s
    ensures Split(s, sep) == [s[..IndexOf(s, sep)]] + Split(s[IndexOf(s, sep) + 1..], sep)
  {
  }

  /** One step of the filter. */
  lemma NonBlankLinesStep(x: string, rest: seq<string>)
    ensures NonBlankLines([x] + rest) == (if Trim(x) == "" then [] else [Trim(x)]) + NonBlankLines(rest)
  {
    assert ([x] + rest)[0] == x && ([x] + rest)[1..] == rest;
  }

  /** Leading line feeds only add blank pieces. */
  lemma {:induction false} LeadingNewlines(t: string, n: nat)
    requires n <= |t| && forall k | 0 <= k < n :: t[k] == '\n'
    ensures NonBlankLines(Split(t, '\n')) == NonBlankLines(Split(t[n..], '\n'))
    decreases n
  {
    if n > 0 {
      var u := t[1..];
      assert NonBlankLines(Split(t, '\n')) == NonBlankLines(Split(u, '\n')) by {
        LeadingNewline(t);
      }
      assert NonBlankLines(Split(u, '\n')) == NonBlankLines(Split(t[n..], '\n')) by {
        LeadingNewlines(u, n - 1);
        assert u[n - 1..] == t[n..];
      }
    }
  }

  /** A leading line feed only adds a blank piece. */
  lemma LeadingNewline(t: string)
    requires |t| > 0 && t[0] == '\n'
    ensures NonBlankLines(Split(t, '\n')) == NonBlankLines(Split(t[1..], '\n'))
  {
    assert Split(t, '\n') == [""] + Split(t[1..], '\n') by {
      assert IndexOf(t, '\n') == 0;
      SplitStep(t, '\n');
      assert t[..0] == "";
    }
    BlankPiece("", Split(t[1..], '\n'));
  }

  /** A piece that trims to nothing leaves no line. */
  lemma BlankPiece(x: string, rest: seq<string>)
    requires |x| == 0
    ensures NonBlankLines([x] + rest) == NonBlankLines(rest)
  {
    assert |Trim(x)| == 0;
    NonBlankLinesStep(x, rest);
  }

  /** Splitting on runs of line feeds and on single line feeds leaves the
      same non-blank lines. */
  lemma {:induction false} RunsAsSingle(s: string)
    ensures NonBlankLines(SplitNewlineRuns(s)) == NonBlankLines(Split(s, '\n'))
    decreases |s|
  {
    if '\n' in s {
      var i := IndexOf(s, '\n');
      var r := RunOf(s[i..], '\n');
      RunsAsSingle(s[i + r..]);
      RunsAsSingleStep(s, i, r);
    }
  }

  /** One run of line feeds: the first piece, then the rest as the
      recursion leaves it. */
  lemma RunsAsSingleStep(s: string, i: nat, r: nat)
    requires '\n' in s && i == IndexOf(s, '\n') && r == RunOf(s[i..], '\n')
    requires NonBlankLines(SplitNewlineRuns(s[i + r..])) == NonBlankLines(Split(s[i + r..], '\n'))
    ensures NonBlankLines(SplitNewlineRuns(s)) == NonBlankLines(Split(s, '\n'))
  {
    assert SplitNewlineRuns(s) == [s[..i]] + SplitNewlineRuns(s[i + r..]);
    SplitStep(s, '\n');
    NewlineRunAfter(s, i, r);
    SameLinesAfterHead(SplitNewlineRuns(s), Split(s, '\n'), s[..i],
                       SplitNewlineRuns(s[i + r..]), Split(s[i + 1..], '\n'), Split(s[i + r..], '\n'));
  }

  /** Two lists of pieces with the same head and tails that filter alike
      filter alike. */
  lemma SameLinesAfterHead(p: seq<string>, q: seq<string>, x: string, runs: seq<string>, single: seq<string>, rest: seq<string>)
    requires p == [x] + runs && q == [x] + single
    requires NonBlankLines(runs) == NonBlankLines(rest) && NonBlankLines(single) == NonBlankLines(rest)
    ensures NonBlankLines(p) == NonBlankLines(q)
  {
    NonBlankLinesStep(x, runs);
    NonBlankLinesStep(x, single);
  }

  /** The line feeds after the first one of a run add only blank pieces. */
  lemma NewlineRunAfter(s: string, i: nat, r: nat)
    requires i < |s| && 0 < r && r == RunOf(s[i..], '\n')
    ensures NonBlankLines(Split(s[i + 1..], '\n')) == NonBlankLines(Split(s[i + r..], '\n'))
  {
    var t := s[i + 1..];
    forall k | 0 <= k < r - 1
      ensures t[k] == '\n'
    {
      assert t[k] == s[i..][k + 1];
    }
    LeadingNewlines(t, r - 1);
    assert t[r - 1..] == s[i + r..];
  }

  /** Lines are parsed independently and in order: a line feed between two
      texts parses to the tips of each, one after the other. */
  lemma ParseLineBreak(a: string, b: string)
    ensures Parse(a + "\n" + b) == Parse(a) + Parse(b)
  {
    var s := a + "\n" + b;
    RunsAsSingle(s);
    RunsAsSingle(a);
    RunsAsSingle(b);
    SplitAround(a, b, '\n');
    NonBlankLinesAppend(Split(a, '\n'), Split(b, '\n'));
    MapAppend(ParseLine, NonBlankLines(SplitNewlineRuns(a)), NonBlankLines(SplitNewlineRuns(b)));
  }

  /** A single line gives one tip when it is not blank and none when it is. */
  lemma ParseSingleLine(line: string)
    requires '\n' !in line
    ensures Parse(line) == if Trim(line) == "" then [] else [ParseLine(Trim(line))]
  {
    assert SplitNewlineRuns(line) == [line];
    assert NonBlankLines([line]) == (if Trim(line) == "" then [] else [Trim(line)]) + NonBlankLines([]);
  }

  /** The line the copy button writes for one tip: `title: description`, or
      the title alone when the description is empty. */
  function Render(t: Tip): (r: string)
    ensures t.title <= r
    ensures '\n' in r <==> '\n' in t.title || '\n' in t.description
  {
    if t.description != "" then t.title + ": " + t.description else t.title
  }

  function Renders(tips: seq<Tip>): seq<string> {
    Map(Render, tips)
  }

  /** The clipboard text: the rendered tips joined by line feeds. When no
      rendered tip spans lines, it has exactly one line per tip. */
  function Format(tips: seq<Tip>): (r: string)
    ensures |tips| >= 1 && (forall i | 0 <= i < |tips| :: '\n' !in Render(tips[i])) ==>
              Split(r, '\n') == Renders(tips)
  {
    JoinedLines(tips);
    Join(Renders(tips), "\n")
  }

  lemma JoinedLines(tips: seq<Tip>)
    ensures |tips| >= 1 && (forall i | 0 <= i < |tips| :: '\n' !in Render(tips[i])) ==>
              Split(Join(Renders(tips), "\n"), '\n') == Renders(tips)
  {
    if |tips| >= 1 && forall i | 0 <= i < |tips| :: '\n' !in Render(tips[i]) {
      SplitJoin(Renders(tips), '\n');
    }
  }

  /** A tip the copy text carries unchanged: a non-empty title with no star,
      separator or line terminator that does not start like a numbered
      marker, and a description on one line; both trimmed. */
  predicate Printable(t: Tip) {
    && t.title != "" && IsTrimmed(t.title) && NoLineTerminator(t.title)
    && !IsDecimalDigit(t.title[0])
    && (forall i | 0 <= i < |t.title| :: InTitleClass(t.title[i]) && !IsSeparator(t.title[i]))
    && IsTrimmed(t.description) && NoLineTerminator(t.description)
  }

  /** Inside a printable title the rest of the pattern never matches: any
      white space run ends on a title character, which is no separator. */
  lemma TailInsideTitle(title: string, rest: string, p: nat)
    requires 0 < p < |title| && IsTrimmed(title)
    requires forall i | 0 <= i < |title| :: InTitleClass(title[i]) && !IsSeparator(title[i])
    ensures TailAt(title + rest, p).None?
  {
    var clean := title + rest;
    var u := clean[p..];
    assert u[0] == title[p];
    assert RunOf(u, '*') == 0;
    var w := LeadingSpace(u);
    assert u[|title| - 1 - p] == title[|title| - 1];
    LeadingSpaceStops(u, |title| - 1 - p);
    assert clean[p + w] == title[p + w];
  }

  /** White space skipping stops at the first character that is not white
      space. */
  lemma {:induction false} LeadingSpaceStops(u: string, k: nat)
    requires k < |u| && !IsWhiteSpace(u[k])
    ensures LeadingSpace(u) <= k
    decreases k
  {
    if k > 0 && IsWhiteSpace(u[0]) {
      assert u[1..][k - 1] == u[k];
      LeadingSpaceStops(u[1..], k - 1);
    }
  }

  /** Right after a title, `: description` matches the rest of the pattern
      and the second group is the description. */
  lemma TailAfterTitle(title: string, desc: string)
    requires desc != "" && IsTrimmed(desc) && NoLineTerminator(desc)
    ensures TailAt(title + ": " + desc, |title|) == Some(|title| + 2)
  {
    var clean := title + ": " + desc;
    var p := |title|;
    assert clean[p..] == ": " + desc;
    assert RunOf(clean[p..], '*') == 0;
    assert LeadingSpace(clean[p..]) == 0;
    assert clean[p + 1..] == " " + desc;
    assert LeadingSpace(clean[p + 1..]) == 1 by {
      assert (" " + desc)[1..] == desc;
      assert LeadingSpace(desc) == 0;
    }
    assert clean[p + 2..] == desc;
  }

  /** A printable tip with a description: the pattern splits its rendered
      line back into title and description. */
  lemma MatchRendered(t: Tip)
    requires Printable(t) && t.description != ""
    ensures MatchTip(Render(t)) == Some((t.title, t.description))
  {
    var clean := t.title + ": " + t.description;
    var n := |t.title|;
    RenderedLine(t.title, t.description);
    MatchTipAt(clean, n, n + 2);
  }

  /** The facts about `title: desc` the pattern's match depends on, all
      stated on that one text. */
  lemma RenderedLine(title: string, desc: string)
    requires title != "" && IsTrimmed(title) && !IsDecimalDigit(title[0])
    requires forall i | 0 <= i < |title| :: InTitleClass(title[i]) && !IsSeparator(title[i])
    requires desc != "" && IsTrimmed(desc) && NoLineTerminator(desc)
    ensures var clean := title + ": " + desc;
            && RunOf(clean, '*') == 0 && ClassRun(clean) == |title|
            && TailAt(clean, |title|) == Some(|title| + 2)
            && LazyGroupEnd(clean, 1, |title|) == Some(|title|)
            && clean[..|title|] == title && clean[|title| + 2..] == desc
  {
    var rest := ": " + desc;
    var clean := title + ": " + desc;
    assert clean == title + rest;
    assert clean[0] == title[0];
    ClassRunPrefix(title, rest);
    TailAfterTitle(title, desc);
    GroupEndsWithTitle(title, rest);
  }

  /** Behind a printable title the lazy group grows to the whole title
      once the rest of the pattern matches right after it. */
  lemma GroupEndsWithTitle(title: string, rest: string)
    requires 0 < |title| && IsTrimmed(title)
    requires forall i | 0 <= i < |title| :: InTitleClass(title[i]) && !IsSeparator(title[i])
    requires TailAt(title + rest, |title|).Some?
    ensures LazyGroupEnd(title + rest, 1, |title|) == Some(|title|)
  {
    forall f | 1 <= f < |title|
      ensures TailAt(title + rest, f).None?
    {
      TailInsideTitle(title, rest, f);
    }
    LazyGroupEndAt(title + rest, 1, |title|);
  }

  /** When the text starts with no star, its class run ends at `n`, and the
      lazy group first lets the rest of the pattern match at `n`, the groups are the text
      up to `n` and the text from `start`. */
  lemma MatchTipAt(clean: string, n: nat, start: nat)
    requires 0 < n <= |clean| && RunOf(clean, '*') == 0 && ClassRun(clean) == n
    requires LazyGroupEnd(clean, 1, n) == Some(n)
    requires TailAt(clean, n) == Some(start)
    ensures MatchTip(clean) == Some((clean[..n], clean[start..]))
  {
    assert clean[0..] == clean;
    assert Groups(clean, 0, n) == (clean[..n], clean[start..]) by {
      assert clean[0..n] == clean[..n];
    }
  }

  /** The search for the group's end stops at the first end after which the
      rest of the pattern matches. */
  lemma LazyGroupEndAt(clean: string, e: nat, n: nat)
    requires e <= n <= |clean| && TailAt(clean, n).Some?
    requires forall f | e <= f < n :: TailAt(clean, f).None?
    ensures LazyGroupEnd(clean, e, n) == Some(n)
  {
    var table := TailTable(clean);
    assert forall f | e <= f < n :: !table[f];
    FirstTrueAt(table, e, n);
  }

  /** The class run of a text that starts with class characters stops where
      they stop. */
  lemma {:induction false} ClassRunPrefix(s: string, rest: string)
    requires forall i | 0 <= i < |s| :: InTitleClass(s[i])
    requires rest != "" && !InTitleClass(rest[0])
    ensures ClassRun(s + rest) == |s|
    decreases |s|
  {
    if |s| > 0 {
      assert (s + rest)[1..] == s[1..] + rest;
      ClassRunPrefix(s[1..], rest);
    } else {
      assert s + rest == rest;
    }
  }

  /** A printable tip's rendered line parses back to the tip. */
  lemma RenderParses(t: Tip)
    requires Printable(t)
    ensures Parse(Render(t)) == [t]
  {
    var line := Render(t);
    assert Parse(line) == [ParseLine(line)] by {
      assert line[0] == t.title[0];
      assert IsTrimmed(line);
      assert '\n' !in line;
      ParseSingleLine(line);
      TrimTrimmed(line);
    }
    RenderedLineParses(t);
  }

  /** The one line a printable tip renders to parses to that tip. */
  lemma RenderedLineParses(t: Tip)
    requires Printable(t)
    ensures ParseLine(Render(t)) == t
  {
    if t.description != "" {
      DescribedLineParses(t);
    } else {
      BareLineParses(t);
    }
  }

  lemma DescribedLineParses(t: Tip)
    requires Printable(t) && t.description != ""
    ensures ParseLine(Render(t)) == t
  {
    DescribedLineFacts(t);
    ParseMatched(Render(t), t.title, t.description);
  }

  lemma BareLineParses(t: Tip)
    requires Printable(t) && t.description == ""
    ensures ParseLine(Render(t)) == t
  {
    BareLineFacts(t);
    ParseUnmatched(t.title);
  }

  /** No marker starts the rendered line of a printable tip with a
      description, and the pattern splits it into title and description. */
  lemma DescribedLineFacts(t: Tip)
    requires Printable(t) && t.description != ""
    ensures StripMarker(Render(t)) == Render(t)
    ensures MatchTip(Render(t)) == Some((t.title, t.description))
  {
    var line := Render(t);
    assert line[0] == t.title[0];
    NoMarkerKept(line);
    MatchRendered(t);
  }

  /** The title of a printable tip has no marker and no separator. */
  lemma BareLineFacts(t: Tip)
    requires Printable(t)
    ensures StripMarker(t.title) == t.title && NoSeparator(t.title)
  {
    assert InTitleClass(t.title[0]);
    TitleKept(t.title);
  }

  /** A trimmed title that starts with no digit, star or hyphen has no
      marker to strip. */
  lemma TitleKept(title: string)
    requires title != "" && IsTrimmed(title) && !IsDecimalDigit(title[0]) && InTitleClass(title[0])
    ensures StripMarker(title) == title
  {
    NoMarkerKept(title);
  }

  /** A line no marker starts and the pattern splits into two trimmed
      groups parses to those groups. */
  lemma ParseMatched(line: string, title: string, desc: string)
    requires StripMarker(line) == line && MatchTip(line) == Some((title, desc))
    requires IsTrimmed(title) && IsTrimmed(desc)
    ensures ParseLine(line) == Tip(title, desc)
  {
    TrimTrimmed(title);
    TrimTrimmed(desc);
  }

  /** A trimmed line with no marker and no separator parses to itself as
      the title. */
  lemma ParseUnmatched(line: string)
    requires StripMarker(line) == line && NoSeparator(line) && IsTrimmed(line)
    ensures ParseLine(line) == Tip(line, "")
  {
    TrimTrimmed(line);
  }

  /** The clipboard text of printable tips parses back to the same tips. */
  lemma {:induction false} FormatParses(tips: seq<Tip>)
    requires forall i | 0 <= i < |tips| :: Printable(tips[i])
    ensures Parse(Format(tips)) == tips
    decreases |tips|
  {
    if |tips| == 0 {
      NothingToParse();
      assert Format(tips) == "";
    } else if |tips| == 1 {
      assert Format(tips) == Render(tips[0]);
      RenderParses(tips[0]);
    } else {
      FormatParses(tips[1..]);
      FormatParsesCons(tips);
    }
  }

  lemma NothingToParse()
    ensures Parse("") == []
  {
    assert SplitNewlineRuns("") == [""];
    assert NonBlankLines([""]) == [];
  }

  /** One more printable tip in front of a clipboard text that parses back. */
  lemma FormatParsesCons(tips: seq<Tip>)
    requires |tips| >= 2 && Printable(tips[0])
    requires Parse(Format(tips[1..])) == tips[1..]
    ensures Parse(Format(tips)) == tips
  {
    var a := Render(tips[0]);
    var b := Format(tips[1..]);
    assert Format(tips) == a + "\n" + b by {
      assert Renders(tips)[1..] == Renders(tips[1..]);
    }
    ParseLineBreak(a, b);
    RenderParses(tips[0]);
    ConsChain(Parse(a + "\n" + b), Parse(a), Parse(b), tips);
  }

  lemma ConsChain<T>(whole: seq<T>, first: seq<T>, others: seq<T>, xs: seq<T>)
    requires |xs| >= 1 && whole == first + others && first == [xs[0]] && others == xs[1..]
    ensures whole == xs
  {
  }
}
