/** Which lines of a message are code, in terms of the lines alone. */
module FenceLaws {
  import opened Bytes
  import opened Masking

  // ---- A line that is a fence ----

  predicate IsLetterOrDigit(b: byte) {
    48 <= b <= 57 || 65 <= b <= 90 || 97 <= b <= 122
  }

  /** Between white space, a delimiter with at most letters and digits behind it. */
  predicate IsDelimiter(line: bytes, delim: bytes) {
    exists i, k | 0 <= i <= k <= |line| :: IsBlank(line[..i]) && IsBlank(line[k..]) && IsMark(line[i..k], delim)
  }

  predicate IsMark(s: bytes, delim: bytes) {
    delim <= s && forall b | b in s[|delim|..] :: IsLetterOrDigit(b)
  }

  /** A line of three backticks, and one of three tildes. */
  predicate IsTicks(line: bytes) {
    IsDelimiter(line, [96, 96, 96])
  }

  predicate IsTildes(line: bytes) {
    IsDelimiter(line, [126, 126, 126])
  }

  lemma {:induction false} TrimLeftLeaves(s: bytes) returns (i: nat)
    ensures i <= |s| && TrimLeft(s) == s[i..] && IsBlank(s[..i])
    decreases |s|
  {
    hide LeadingBlank, IsBlank;
    var n := LeadingBlank(s);
    WholeIsBlank([]);
    if n > 0 {
      i := TrimLeftLeaves(s[n..]);
      assert s[n..][..i] == s[..n + i][n..] && s[n..][i..] == s[n + i..];
      BlankJoins(s[..n], s[n..][..i]);
      assert s[..n] + s[n..][..i] == s[..n + i];
      UnitIsBlank(s);
      i := n + i;
    } else {
      i := 0;
    }
  }

  lemma UnitIsBlank(s: bytes)
    requires LeadingBlank(s) > 0
    ensures IsBlank(s[..LeadingBlank(s)]) && LeadingBlank(s[..LeadingBlank(s)]) == LeadingBlank(s)
  {
  }

  lemma LeadingOver(s: bytes, r: bytes)
    requires LeadingBlank(s) > 0
    ensures LeadingBlank(s + r) == LeadingBlank(s)
  {
  }

  lemma {:induction false} BlankJoins(a: bytes, b: bytes)
    ensures IsBlank(a) && IsBlank(b) ==> IsBlank(a + b)
    decreases |a|
  {
    if a == [] {
      assert a + b == b;
    } else if IsBlank(a) {
      var n := LeadingBlank(a);
      LeadingOver(a, b);
      assert (a + b)[n..] == a[n..] + b;
      BlankJoins(a[n..], b);
    }
  }

  lemma {:induction false} TrimRightLeaves(s: bytes) returns (k: nat)
    ensures k <= |s| && TrimRight(s) == s[..k] && IsBlank(s[k..])
    decreases |s|
  {
    hide LeadingBlank, TrailingBlank, IsBlank;
    var n := TrailingBlank(s);
    WholeIsBlank([]);
    if n > 0 {
      var most := s[..|s| - n];
      k := TrimRightLeaves(most);
      assert most[..k] == s[..k];
      TrailingIsBlank(s);
      BlankJoins(most[k..], s[|s| - n..]);
      assert most[k..] + s[|s| - n..] == s[k..];
    } else {
      k := |s|;
      assert s[..k] == s && s[k..] == [];
    }
  }

  lemma TrailingIsBlank(s: bytes)
    requires TrailingBlank(s) > 0
    ensures IsBlank(s[|s| - TrailingBlank(s)..])
  {
    hide LeadingBlank, IsBlank;
    WholeIsBlank(s[|s| - TrailingBlank(s)..]);
  }

  lemma WholeIsBlank(u: bytes)
    requires LeadingBlank(u) == |u|
    ensures IsBlank(u)
  {
    hide LeadingBlank;
    assert u[|u|..] == [];
  }

  lemma {:induction false} TrimLeftOver(a: bytes, r: bytes)
    requires IsBlank(a) && LeadingBlank(r) == 0
    ensures TrimLeft(a + r) == r
    decreases |a|
  {
    if a == [] {
      assert a + r == r;
    } else {
      var n := LeadingBlank(a);
      LeadingOver(a, r);
      assert (a + r)[n..] == a[n..] + r;
      TrimLeftOver(a[n..], r);
    }
  }

  /** White space ends with a white-space character. */
  lemma {:induction false} BlankEnds(b: bytes) returns (n: nat)
    requires IsBlank(b) && b != []
    ensures n < |b| && IsBlank(b[..n]) && LeadingBlank(b[n..]) == |b| - n
    decreases |b|
  {
    var m := LeadingBlank(b);
    if b[m..] == [] {
      n := 0;
      assert b[0..] == b && b[..0] == [];
    } else {
      n := BlankEnds(b[m..]);
      assert b[m..][n..] == b[m + n..] && b[..m] + b[m..][..n] == b[..m + n];
      UnitIsBlank(b);
      BlankJoins(b[..m], b[m..][..n]);
      n := m + n;
    }
  }

  lemma TrailingOver(s: bytes, u: bytes)
    requires LeadingBlank(u) == |u| > 0
    ensures TrailingBlank(s + u) == |u|
  {
    var t := s + u;
    assert t[|s|..] == u;
    if |u| > 1 {
      assert t[|t| - 1..] == u[|u| - 1..] && LeadingBlank(t[|t| - 1..]) == 0;
    }
    if |u| > 2 {
      assert t[|t| - 2..] == u[|u| - 2..] && LeadingBlank(t[|t| - 2..]) == 0;
    }
  }

  lemma {:induction false} TrimRightOver(s: bytes, b: bytes)
    requires IsBlank(b) && TrailingBlank(s) == 0
    ensures TrimRight(s + b) == s
    decreases |b|
  {
    if b == [] {
      assert s + b == s;
    } else {
      var n := BlankEnds(b);
      assert s + b == (s + b[..n]) + b[n..];
      TrailingOver(s + b[..n], b[n..]);
      assert (s + b)[..|s + b| - (|b| - n)] == s + b[..n];
      TrimRightOver(s, b[..n]);
    }
  }

  lemma MarkIsTight(s: bytes, delim: bytes, r: bytes)
    requires IsMark(s, delim) && (delim == TICKS || delim == TILDES)
    ensures LeadingBlank(s + r) == 0 && TrailingBlank(s) == 0
  {
    var last := s[|s| - 1];
    assert s[0] == delim[0];
    assert |s| > 3 ==> last in s[3..];
    assert |s| == 3 ==> last == delim[2];
  }

  lemma FenceIsDelimiter(line: bytes, delim: bytes)
    requires delim == TICKS || delim == TILDES
    ensures IsFence(line, delim) <==> IsDelimiter(line, delim)
  {
    hide TrimLeft, TrimRight, IsBlank, LeadingBlank, TrailingBlank;
    if IsFence(line, delim) {
      var i := TrimLeftLeaves(line);
      var n := TrimRightLeaves(line[i..]);
      var k := i + n;
      assert line[i..][..n] == line[i..k] && line[i..][n..] == line[k..];
      assert IsMark(line[i..k], delim);
    }
    if IsDelimiter(line, delim) {
      var i, k :| 0 <= i <= k <= |line| && IsBlank(line[..i]) && IsBlank(line[k..]) && IsMark(line[i..k], delim);
      var s := line[i..k];
      assert line == line[..i] + (s + line[k..]);
      MarkIsTight(s, delim, line[k..]);
      TrimLeftOver(line[..i], s + line[k..]);
      TrimRightOver(s, line[k..]);
    }
  }

  // ---- Fences ----

  /** The line at `o`, itself outside every fence, opens one that no line up to `i` closes: only its own kind does. */
  predicate KeepsOpen(lines: seq<bytes>, o: nat, i: nat)
    requires o < i <= |lines|
  {
    && !Fenced(lines, o)
    && ((IsTicks(lines[o]) && forall m | o < m < i :: !IsTicks(lines[m]))
        || (IsTildes(lines[o]) && forall m | o < m < i :: !IsTildes(lines[m])))
  }

  lemma {:induction false} FenceMore(fence: Option<bytes>, lines: seq<bytes>, i: nat)
    requires i < |lines|
    ensures FenceFrom(fence, lines, i + 1) == NextFence(FenceFrom(fence, lines, i), lines[i])
    decreases i
  {
    hide NextFence;
    if i > 0 {
      FenceMore(NextFence(fence, lines[0]), lines[1..], i - 1);
      assert lines[1..][i - 1] == lines[i];
    }
  }

  lemma OneKind(line: bytes)
    ensures !(IsTicks(line) && IsTildes(line))
    ensures Opens(line) == if IsTicks(line) then Some(TICKS) else if IsTildes(line) then Some(TILDES) else None
    ensures IsTicks(line) <==> IsFence(line, TICKS)
    ensures IsTildes(line) <==> IsFence(line, TILDES)
  {
    hide TrimLeft, TrimRight, IsAlnum, IsDelimiter;
    FenceIsDelimiter(line, TICKS);
    FenceIsDelimiter(line, TILDES);
    assert IsFence(line, TICKS) ==> TrimRight(TrimLeft(line))[0] == 96;
    assert IsFence(line, TILDES) ==> TrimRight(TrimLeft(line))[0] == 126;
  }

  /** The fence open before a line was opened by some line before, and not closed since. */
  ghost predicate IsOpenFrom(lines: seq<bytes>, delim: bytes, i: nat)
    requires i <= |lines|
  {
    exists o | 0 <= o < i :: !Fenced(lines, o) && Opens(lines[o]) == Some(delim) && NoneCloses(lines, delim, o, i)
  }

  predicate NoneCloses(lines: seq<bytes>, delim: bytes, o: nat, i: nat)
    requires i <= |lines|
  {
    forall m | o < m < i :: !IsFence(lines[m], delim)
  }

  lemma {:induction false} FenceIsOpen(lines: seq<bytes>, i: nat, delim: bytes)
    requires i <= |lines|
    ensures FenceFrom(None, lines, i) == Some(delim) <==> IsOpenFrom(lines, delim, i)
    decreases i
  {
    hide FenceFrom, Opens, IsFence;
    if i == 0 {
      NoFence(lines);
    } else {
      FenceMore(None, lines, i - 1);
      FenceIsOpen(lines, i - 1, delim);
      FenceIsOneOpen(lines, i - 1, delim);
      var was := FenceFrom(None, lines, i - 1);
      if IsOpenFrom(lines, delim, i - 1) && !IsFence(lines[i - 1], delim) {
        var o :| 0 <= o < i - 1 && !Fenced(lines, o) && Opens(lines[o]) == Some(delim)
                 && NoneCloses(lines, delim, o, i - 1);
        assert NoneCloses(lines, delim, o, i);
      }
      if was == None && Opens(lines[i - 1]) == Some(delim) {
        assert NoneCloses(lines, delim, i - 1, i);
      }
      if IsOpenFrom(lines, delim, i) {
        var o :| 0 <= o < i && !Fenced(lines, o) && Opens(lines[o]) == Some(delim) && NoneCloses(lines, delim, o, i);
        if o < i - 1 {
          assert NoneCloses(lines, delim, o, i - 1);
        }
      }
    }
  }

  lemma NoFence(lines: seq<bytes>)
    ensures FenceFrom(None, lines, 0) == None
  {
  }

  lemma FenceIsOneOpen(lines: seq<bytes>, i: nat, delim: bytes)
    requires i < |lines|
    ensures Fenced(lines, i) <==> FenceFrom(None, lines, i).Some?
  {
  }

  /** A line is in a fence exactly when a line before it, outside every fence, opens one that no line in between closes.
      The closing line is in the fence, the opening one is not. */
  lemma FencedIff(lines: seq<bytes>, i: nat)
    requires i < |lines|
    ensures Fenced(lines, i) <==> exists o | 0 <= o < i :: KeepsOpen(lines, o, i)
  {
    hide Fenced, IsFence, Opens, IsDelimiter;
    FenceIsOneOpen(lines, i, []);
    forall delim ensures FenceFrom(None, lines, i) == Some(delim) <==> IsOpenFrom(lines, delim, i) {
      FenceIsOpen(lines, i, delim);
    }
    forall line
      ensures Opens(line) == if IsTicks(line) then Some(TICKS) else if IsTildes(line) then Some(TILDES) else None
      ensures !(IsTicks(line) && IsTildes(line))
      ensures (IsTicks(line) <==> IsFence(line, TICKS)) && (IsTildes(line) <==> IsFence(line, TILDES))
    {
      OneKind(line);
    }
    if Fenced(lines, i) {
      var delim := FenceFrom(None, lines, i).value;
      var o :| 0 <= o < i && !Fenced(lines, o) && Opens(lines[o]) == Some(delim) && NoneCloses(lines, delim, o, i);
      assert KeepsOpen(lines, o, i);
    }
    if exists o | 0 <= o < i :: KeepsOpen(lines, o, i) {
      var o :| 0 <= o < i && KeepsOpen(lines, o, i);
      var delim := if IsTicks(lines[o]) then TICKS else TILDES;
      assert NoneCloses(lines, delim, o, i);
      assert IsOpenFrom(lines, delim, i);
    }
  }

  // ---- Indented code ----

  predicate IsGap(lines: seq<bytes>, m: nat)
    requires m < |lines|
  {
    Fenced(lines, m) || IsBlank(lines[m])
  }

  /** A line outside fences that is not blank and starts with a tab or four spaces. */
  predicate IsIndentedLine(lines: seq<bytes>, m: nat)
    requires m < |lines|
  {
    !IsGap(lines, m) && ([9] <= lines[m] || [32, 32, 32, 32] <= lines[m])
  }

  /** Such lines from the first line, or from behind a blank or fenced one, up to this one. */
  predicate EndsBlock(lines: seq<bytes>, i: nat)
    requires i < |lines|
  {
    exists s | 0 <= s <= i :: StartsBlock(lines, s) && AllIndented(lines, s, i)
  }

  predicate StartsBlock(lines: seq<bytes>, s: nat)
    requires s < |lines|
  {
    s == 0 || IsGap(lines, s - 1)
  }

  predicate AllIndented(lines: seq<bytes>, s: nat, i: nat)
    requires i < |lines|
  {
    forall m | s <= m <= i :: IsIndentedLine(lines, m)
  }

  lemma MapTells(lines: seq<bytes>, m: nat)
    requires m < |lines|
    ensures IsBlank(LineMaps(None, lines)[m]) <==> IsGap(lines, m)
    ensures !IsGap(lines, m) ==> LineMaps(None, lines)[m] == lines[m]
  {
    hide LineMaps, IsBlank, FirstMasks, FenceFrom;
    FirstPassAt(None, lines, m);
    BlankedIsBlank(lines[m]);
    FenceIsOneOpen(lines, m, []);
  }

  lemma {:induction false} BlockStep(lines: seq<bytes>, i: nat)
    requires i < |lines|
    ensures InIndented(LineMaps(None, lines), i) <==> EndsBlock(lines, i)
    decreases i
  {
    hide LineMaps, IsGap, IsBlank, IsIndentedLine;
    BlockOne(lines, i);
    if i > 0 {
      BlockStep(lines, i - 1);
      if EndsBlock(lines, i - 1) && IsIndentedLine(lines, i) {
        var s :| 0 <= s <= i - 1 && StartsBlock(lines, s) && AllIndented(lines, s, i - 1);
        assert AllIndented(lines, s, i);
      }
    }
    if StartsBlock(lines, i) && IsIndentedLine(lines, i) {
      assert AllIndented(lines, i, i);
    }
    if EndsBlock(lines, i) {
      var s :| 0 <= s <= i && StartsBlock(lines, s) && AllIndented(lines, s, i);
      assert IsIndentedLine(lines, i);
      if s < i {
        assert AllIndented(lines, s, i - 1);
      }
    }
  }

  lemma BlockOne(lines: seq<bytes>, i: nat)
    requires i < |lines|
    ensures InIndented(LineMaps(None, lines), i)
       <==> IsIndentedLine(lines, i) && (StartsBlock(lines, i) || (i > 0 && InIndented(LineMaps(None, lines), i - 1)))
  {
    hide LineMaps, IsGap, IsBlank;
    MapTells(lines, i);
    if i > 0 {
      MapTells(lines, i - 1);
    }
  }

  /** A line is indented code exactly when it ends such a block. */
  lemma IndentedIff(lines: seq<bytes>, i: nat)
    requires i < |lines|
    ensures Indented(lines, i) <==> EndsBlock(lines, i)
  {
    BlockStep(lines, i);
  }
}
