/** Which at-signs of a message are live: code regions and escaped mentions are blanked out before mentions are
    looked for. */
module Masking {
  import opened Bytes
  import opened Lines

  const AT: byte := 64
  const BACKTICK: byte := 96
  const TICKS: bytes := [96, 96, 96]
  const TILDES: bytes := [126, 126, 126]

  // ---- Lines ----

  /** strings.Split at newlines. */
  function LinesOf(body: bytes): (lines: seq<bytes>)
    ensures lines != []
  {
    Split(body) + [Remainder(body)]
  }

  function Join(lines: seq<bytes>): bytes
    requires lines != []
  {
    if |lines| == 1 then lines[0] else lines[0] + ([NEWLINE] + Join(lines[1..]))
  }

  lemma {:induction false} JoinSplit(lines: seq<bytes>, rest: bytes)
    ensures Join(lines + [rest]) == Joined(lines) + rest
  {
    if lines == [] {
      assert lines + [rest] == [rest] && [] + rest == rest;
    } else {
      assert (lines + [rest])[1..] == lines[1..] + [rest];
      JoinSplit(lines[1..], rest);
      Regrouped(lines[0], Joined(lines[1..]), rest);
    }
  }

  lemma LinesJoin(body: bytes)
    ensures Join(LinesOf(body)) == body
  {
    JoinSplit(Split(body), Remainder(body));
    SplitLosesNothing(body);
  }

  lemma {:induction false} LinesAreLines(body: bytes)
    ensures forall line | line in LinesOf(body) :: IsLine(line)
    decreases |body|
  {
    if IsLine(body) {
      NotReached(body);
    } else {
      var i := FirstLine(body);
      Reached(body[..i], body[i + 1..]);
      LinesAreLines(body[i + 1..]);
      assert LinesOf(body) == [body[..i]] + LinesOf(body[i + 1..]);
    }
  }

  /** Where a line starts in the joined text. */
  function Offset(lines: seq<bytes>, i: nat): nat
    requires i < |lines|
  {
    if i == 0 then 0 else |lines[0]| + 1 + Offset(lines[1..], i - 1)
  }

  lemma {:induction false} JoinAt(lines: seq<bytes>, i: nat, c: nat)
    requires i < |lines| && c < |lines[i]|
    ensures Offset(lines, i) + c < |Join(lines)| && Join(lines)[Offset(lines, i) + c] == lines[i][c]
    ensures Offset(lines, i) + c > 0 ==>
      Join(lines)[Offset(lines, i) + c - 1] == if c > 0 then lines[i][c - 1] else NEWLINE
  {
    if i > 0 {
      JoinAt(lines[1..], i - 1, c);
      assert Join(lines) == lines[0] + ([NEWLINE] + Join(lines[1..]));
    }
  }

  // ---- White space, as strings.TrimSpace sees it ----

  function TrimLeft(s: bytes): bytes
    decreases |s|
  {
    if LeadingBlank(s) > 0 then TrimLeft(s[LeadingBlank(s)..]) else s
  }

  /** The number of bytes of the white-space character at the end of `s`, 0 when there is none. */
  function TrailingBlank(s: bytes): (n: nat)
    ensures n <= |s|
  {
    if |s| >= 1 && LeadingBlank(s[|s| - 1..]) == 1 then 1
    else if |s| >= 2 && LeadingBlank(s[|s| - 2..]) == 2 then 2
    else if |s| >= 3 && LeadingBlank(s[|s| - 3..]) == 3 then 3
    else 0
  }

  function TrimRight(s: bytes): bytes
    decreases |s|
  {
    if TrailingBlank(s) > 0 then TrimRight(s[..|s| - TrailingBlank(s)]) else s
  }

  lemma {:induction false} BlankHasNoAt(s: bytes)
    requires IsBlank(s)
    ensures AT !in s
    decreases |s|
  {
    if s != [] {
      var n := LeadingBlank(s);
      BlankHasNoAt(s[n..]);
      assert s == s[..n] + s[n..];
      assert AT !in s[..n];
    }
  }

  // ---- Fences ----

  predicate IsAlnum(b: byte) {
    97 <= b <= 122 || 65 <= b <= 90 || 48 <= b <= 57
  }

  /** The trimmed line is a delimiter, with at most letters and digits after it. */
  predicate IsFence(line: bytes, delim: bytes) {
    var trimmed := TrimRight(TrimLeft(line));
    delim <= trimmed && forall b | b in trimmed[|delim|..] :: IsAlnum(b)
  }

  function Opens(line: bytes): Option<bytes> {
    if IsFence(line, TICKS) then Some(TICKS) else if IsFence(line, TILDES) then Some(TILDES) else None
  }

  /** The open fence after a line, by the one before it. */
  function NextFence(fence: Option<bytes>, line: bytes): Option<bytes> {
    match fence
    case None => Opens(line)
    case Some(delim) => if IsFence(line, delim) then None else fence
  }

  /** The fence that is open before a line, by the one before the first. */
  function FenceFrom(fence: Option<bytes>, lines: seq<bytes>, i: nat): Option<bytes>
    requires i <= |lines|
    decreases i
  {
    if i == 0 then fence else FenceFrom(NextFence(fence, lines[0]), lines[1..], i - 1)
  }

  predicate Fenced(lines: seq<bytes>, i: nat)
    requires i < |lines|
  {
    FenceFrom(None, lines, i).Some?
  }

  // ---- Blanking out ----

  function Blanked(b: byte): byte {
    if b == TAB then TAB else SPACE
  }

  function MaskContent(line: bytes): (m: bytes)
    ensures |m| == |line| && forall k {:trigger m[k]} | 0 <= k < |m| :: m[k] == Blanked(line[k])
  {
    if line == [] then [] else [Blanked(line[0])] + MaskContent(line[1..])
  }

  lemma {:induction false} BlankedIsBlank(line: bytes)
    ensures IsBlank(MaskContent(line))
  {
    if line != [] {
      BlankedIsBlank(line[1..]);
      assert MaskContent(line)[1..] == MaskContent(line[1..]);
    }
  }

  /** Whether a position of a line is inside backticks. */
  predicate InCode(line: bytes, k: nat)
    requires k <= |line|
  {
    k > 0 && if line[k - 1] == BACKTICK then !InCode(line, k - 1) else InCode(line, k - 1)
  }

  /** A line with what is inside backticks blanked out. */
  function MaskInline(line: bytes, inCode: bool := false): (m: bytes)
    ensures |m| == |line|
  {
    if line == [] then []
    else if line[0] == BACKTICK then [BACKTICK] + MaskInline(line[1..], !inCode)
    else [if inCode then Blanked(line[0]) else line[0]] + MaskInline(line[1..], inCode)
  }

  lemma {:induction false} InCodeGoesOn(line: bytes, k: nat)
    requires 0 < k <= |line|
    ensures InCode(line, k) <==> (InCode(line[1..], k - 1) != (line[0] == BACKTICK))
  {
    if k > 1 {
      InCodeGoesOn(line, k - 1);
    }
  }

  lemma {:induction false} MaskInlineAt(line: bytes, inCode: bool, k: nat)
    requires k < |line|
    ensures MaskInline(line, inCode)[k]
         == if line[k] != BACKTICK && InCode(line, k) != inCode then Blanked(line[k]) else line[k]
  {
    if k > 0 {
      InCodeGoesOn(line, k);
      MaskInlineAt(line[1..], if line[0] == BACKTICK then !inCode else inCode, k - 1);
    }
  }

  predicate HasCodeIndent(line: bytes) {
    [TAB] <= line || [SPACE, SPACE, SPACE, SPACE] <= line
  }

  function MaskIndented(line: bytes): bytes {
    if [TAB] <= line then [TAB] + MaskContent(line[1..])
    else if [SPACE, SPACE, SPACE, SPACE] <= line then [SPACE, SPACE, SPACE, SPACE] + MaskContent(line[4..])
    else MaskContent(line)
  }

  lemma MaskIndentedIsMasked(line: bytes)
    ensures MaskIndented(line) == MaskContent(line)
  {
  }

  // ---- The mask of a message ----

  /** What the first pass makes of a line: its mask, and the line that blank and indented ones are told by, of which
      a fenced one is blank. */
  function FirstMask(fence: Option<bytes>, line: bytes): bytes {
    if fence.Some? then MaskContent(line) else MaskInline(line)
  }

  function LineMap(fence: Option<bytes>, line: bytes): bytes {
    if fence.Some? then MaskContent(line) else line
  }

  function FirstMasks(fence: Option<bytes>, lines: seq<bytes>): (masks: seq<bytes>)
    ensures |masks| == |lines|
    decreases |lines|
  {
    if lines == [] then [] else [FirstMask(fence, lines[0])] + FirstMasks(NextFence(fence, lines[0]), lines[1..])
  }

  function LineMaps(fence: Option<bytes>, lines: seq<bytes>): (maps: seq<bytes>)
    ensures |maps| == |lines|
    decreases |lines|
  {
    if lines == [] then [] else [LineMap(fence, lines[0])] + LineMaps(NextFence(fence, lines[0]), lines[1..])
  }

  lemma {:induction false} FirstPassAt(fence: Option<bytes>, lines: seq<bytes>, i: nat)
    requires i < |lines|
    ensures FirstMasks(fence, lines)[i] == FirstMask(FenceFrom(fence, lines, i), lines[i])
    ensures LineMaps(fence, lines)[i] == LineMap(FenceFrom(fence, lines, i), lines[i])
    decreases |lines|
  {
    hide FirstMasks, LineMaps, FirstMask, LineMap, NextFence;
    if i == 0 {
      FirstPassFirst(fence, lines);
    } else {
      FirstPassAt(NextFence(fence, lines[0]), lines[1..], i - 1);
      assert lines[1..][i - 1] == lines[i];
      FirstPassRest(fence, lines, i);
    }
  }

  lemma FirstPassFirst(fence: Option<bytes>, lines: seq<bytes>)
    requires lines != []
    ensures FirstMasks(fence, lines)[0] == FirstMask(fence, lines[0])
    ensures LineMaps(fence, lines)[0] == LineMap(fence, lines[0])
  {
  }

  lemma FirstPassRest(fence: Option<bytes>, lines: seq<bytes>, i: nat)
    requires 0 < i < |lines|
    ensures FirstMasks(fence, lines)[i] == FirstMasks(NextFence(fence, lines[0]), lines[1..])[i - 1]
    ensures LineMaps(fence, lines)[i] == LineMaps(NextFence(fence, lines[0]), lines[1..])[i - 1]
  {
  }

  /** Indented code starts after a blank line, or at the first, and goes on while the indentation holds. */
  predicate InIndented(maps: seq<bytes>, i: nat)
    requires i < |maps|
  {
    && !IsBlank(maps[i]) && HasCodeIndent(maps[i])
    && (i == 0 || IsBlank(maps[i - 1]) || InIndented(maps, i - 1))
  }

  predicate Indented(lines: seq<bytes>, i: nat)
    requires i < |lines|
  {
    InIndented(LineMaps(None, lines), i)
  }

  /** The second pass over a line that the first one left as `inline`. */
  function MaskAgain(maps: seq<bytes>, i: nat, inline: bytes): bytes
    requires i < |maps|
  {
    if IsBlank(maps[i]) then maps[i]
    else if InIndented(maps, i) then MaskIndented(maps[i])
    else inline
  }

  function MaskLine(lines: seq<bytes>, i: nat): bytes
    requires i < |lines|
  {
    MaskAgain(LineMaps(None, lines), i, FirstMasks(None, lines)[i])
  }

  function MaskLines(lines: seq<bytes>): (m: seq<bytes>)
    ensures |m| == |lines| && forall i {:trigger m[i]} | 0 <= i < |m| :: m[i] == MaskLine(lines, i)
  {
    seq(|lines|, i requires 0 <= i < |lines| => MaskLine(lines, i))
  }

  function Masked(body: bytes): bytes {
    Join(MaskLines(LinesOf(body)))
  }

  function StripEscaped(s: bytes): bytes {
    if s == [] then []
    else if |s| >= 2 && s[0] == BACKSLASH && s[1] == AT then [SPACE, SPACE] + StripEscaped(s[2..])
    else [s[0]] + StripEscaped(s[1..])
  }

  // ---- The mask keeps the shape of a message ----

  /** Bytes are only changed into spaces, and tabs and newlines are never changed. */
  predicate Shaped(m: bytes, s: bytes) {
    |m| == |s| && forall k | 0 <= k < |s| :: m[k] == s[k] || (m[k] == SPACE && s[k] != TAB && s[k] != NEWLINE)
  }

  lemma MaskLineIsShaped(lines: seq<bytes>, i: nat)
    requires i < |lines| && IsLine(lines[i])
    ensures Shaped(MaskLine(lines, i), lines[i])
  {
    FirstPassAt(None, lines, i);
    MaskIndentedIsMasked(LineMaps(None, lines)[i]);
    InlineIsShaped(lines[i]);
  }

  lemma InlineIsShaped(line: bytes)
    requires IsLine(line)
    ensures Shaped(MaskInline(line), line)
  {
    forall k | 0 <= k < |line|
      ensures MaskInline(line)[k] == line[k] || (MaskInline(line)[k] == SPACE && line[k] != TAB)
    {
      MaskInlineAt(line, false, k);
    }
  }

  lemma {:induction false} JoinIsShaped(m: seq<bytes>, lines: seq<bytes>)
    requires |m| == |lines| > 0 && forall i | 0 <= i < |m| :: Shaped(m[i], lines[i])
    ensures Shaped(Join(m), Join(lines))
    ensures forall i | 0 <= i < |m| :: Offset(m, i) == Offset(lines, i)
  {
    if |m| > 1 {
      JoinIsShaped(m[1..], lines[1..]);
      assert forall i | 0 < i < |m| :: Offset(m, i) == |m[0]| + 1 + Offset(m[1..], i - 1);
    }
  }

  /** The mask has the length and the newlines of the message, and changes bytes only into spaces. */
  lemma MaskKeepsShape(body: bytes)
    ensures Shaped(Masked(body), body)
    ensures forall k | 0 <= k < |body| :: Masked(body)[k] == NEWLINE <==> body[k] == NEWLINE
  {
    var lines := LinesOf(body);
    LinesAreLines(body);
    forall i | 0 <= i < |lines| ensures Shaped(MaskLines(lines)[i], lines[i]) {
      MaskLineIsShaped(lines, i);
    }
    JoinIsShaped(MaskLines(lines), lines);
    LinesJoin(body);
  }

  lemma {:induction false} StripKeepsShape(s: bytes)
    ensures Shaped(StripEscaped(s), s)
  {
    if s != [] {
      if |s| >= 2 && s[0] == BACKSLASH && s[1] == AT {
        StripKeepsShape(s[2..]);
      } else {
        StripKeepsShape(s[1..]);
      }
    }
  }

  // ---- Which at-signs are left ----

  lemma {:induction false} StripKeepsAt(s: bytes, k: nat)
    requires k < |s|
    ensures |StripEscaped(s)| == |s|
    ensures StripEscaped(s)[k] == AT <==> s[k] == AT && (k == 0 || s[k - 1] != BACKSLASH)
  {
    StripKeepsShape(s);
    if |s| >= 2 && s[0] == BACKSLASH && s[1] == AT {
      if k >= 2 {
        StripKeepsAt(s[2..], k - 2);
        assert StripEscaped(s)[k] == StripEscaped(s[2..])[k - 2];
      }
    } else if k >= 1 {
      StripKeepsAt(s[1..], k - 1);
      assert StripEscaped(s)[k] == StripEscaped(s[1..])[k - 1];
    }
  }

  /** An at-sign of a line that is not in a fence, in indented code, inside backticks or behind a backslash. */
  predicate Live(lines: seq<bytes>, i: nat, c: nat)
    requires i < |lines| && c < |lines[i]|
  {
    && lines[i][c] == AT && !Fenced(lines, i) && !Indented(lines, i) && !InCode(lines[i], c)
    && (c == 0 || lines[i][c - 1] != BACKSLASH)
  }

  lemma MaskLineAt(lines: seq<bytes>, i: nat, c: nat)
    requires i < |lines| && c < |lines[i]|
    ensures |MaskLine(lines, i)| == |lines[i]|
    ensures MaskLine(lines, i)[c] == AT
            <==> lines[i][c] == AT && !Fenced(lines, i) && !Indented(lines, i) && !InCode(lines[i], c)
    ensures MaskLine(lines, i)[c] == AT && c > 0
            ==> (MaskLine(lines, i)[c - 1] == BACKSLASH <==> lines[i][c - 1] == BACKSLASH)
  {
    FirstPassAt(None, lines, i);
    MaskIndentedIsMasked(LineMaps(None, lines)[i]);
    MaskInlineAt(lines[i], false, c);
    if c > 0 {
      MaskInlineAt(lines[i], false, c - 1);
    }
    if Fenced(lines, i) {
      BlankedIsBlank(lines[i]);
    } else if IsBlank(lines[i]) {
      BlankHasNoAt(lines[i]);
    }
  }

  /** Mentions are looked for at exactly the live at-signs of a message. */
  lemma AtSignsLeft(body: bytes, i: nat, c: nat)
    requires i < |LinesOf(body)| && c < |LinesOf(body)[i]|
    ensures var lines := LinesOf(body);
            var k := Offset(lines, i) + c;
            && k < |body| == |StripEscaped(Masked(body))| && body[k] == lines[i][c]
            && (StripEscaped(Masked(body))[k] == AT <==> Live(lines, i, c))
  {
    var lines := LinesOf(body);
    var m := MaskLines(lines);
    LinesAreLines(body);
    forall x | 0 <= x < |lines| ensures Shaped(m[x], lines[x]) {
      MaskLineIsShaped(lines, x);
    }
    JoinIsShaped(m, lines);
    LinesJoin(body);
    JoinAt(lines, i, c);
    JoinAt(m, i, c);
    MaskLineAt(lines, i, c);
    StripKeepsAt(Masked(body), Offset(lines, i) + c);
  }

  // ---- The masks as the program makes them ----

  method MaskInlineCode(line: bytes) returns (m: bytes)
    ensures m == MaskInline(line)
  {
    m := [];
    var inCode := false;
    for i := 0 to |line|
      invariant MaskInline(line) == m + MaskInline(line[i..], inCode)
    {
      InlineGoesOn(line, i, inCode, m);
      if line[i] == BACKTICK {
        inCode := !inCode;
        m := m + [BACKTICK];
        continue;
      }
      m := m + [if !inCode then line[i] else if line[i] == TAB then TAB else SPACE];
    }
  }

  lemma InlineGoesOn(line: bytes, i: nat, inCode: bool, m: bytes)
    requires i < |line|
    ensures m + MaskInline(line[i..], inCode)
         == if line[i] == BACKTICK then m + [BACKTICK] + MaskInline(line[i + 1..], !inCode)
            else m + [if inCode then Blanked(line[i]) else line[i]] + MaskInline(line[i + 1..], inCode)
  {
    assert line[i..][0] == line[i] && line[i..][1..] == line[i + 1..];
  }

  method MaskLineContent(line: bytes) returns (m: bytes)
    ensures m == MaskContent(line)
  {
    m := [];
    for i := 0 to |line|
      invariant m == MaskContent(line)[..i]
    {
      m := m + [if line[i] == TAB then TAB else SPACE];
    }
  }

  method MaskIndentedCodeLine(line: bytes) returns (m: bytes)
    ensures m == MaskIndented(line)
  {
    if [TAB] <= line {
      m := MaskLineContent(line[1..]);
      return [TAB] + m;
    }
    if [SPACE, SPACE, SPACE, SPACE] <= line {
      m := MaskLineContent(line[4..]);
      return [SPACE, SPACE, SPACE, SPACE] + m;
    }
    m := MaskLineContent(line);
  }

  lemma StripGoesOn(body: bytes, i: nat, out: bytes)
    requires i < |body|
    ensures out + StripEscaped(body[i..])
         == if body[i] == BACKSLASH && i + 1 < |body| && body[i + 1] == AT
            then out + [SPACE, SPACE] + StripEscaped(body[i + 2..])
            else out + [body[i]] + StripEscaped(body[i + 1..])
  {
    var s := body[i..];
    assert s[0] == body[i] && s[1..] == body[i + 1..];
    if |s| >= 2 {
      assert s[1] == body[i + 1] && s[2..] == body[i + 2..];
      assert out + ([SPACE, SPACE] + StripEscaped(s[2..])) == out + [SPACE, SPACE] + StripEscaped(s[2..]);
    }
    assert out + ([s[0]] + StripEscaped(s[1..])) == out + [s[0]] + StripEscaped(s[1..]);
  }

  method StripEscapedMentions(body: bytes) returns (out: bytes)
    ensures out == StripEscaped(body)
  {
    out := [];
    var i := 0;
    while i < |body|
      invariant i <= |body| && StripEscaped(body) == out + StripEscaped(body[i..])
    {
      StripGoesOn(body, i, out);
      if body[i] == BACKSLASH && i + 1 < |body| && body[i + 1] == AT {
        out := out + [SPACE, SPACE];
        i := i + 2;
      } else {
        out := out + [body[i]];
        i := i + 1;
      }
    }
  }

  /** The second pass: it works in place on the lines that the first pass has masked. */
  method ApplyIndentedCodeMask(maskedLines: array<bytes>, lineMaps: array<bytes>)
    requires maskedLines != lineMaps && maskedLines.Length == lineMaps.Length
    modifies maskedLines
    ensures forall k | 0 <= k < maskedLines.Length :: maskedLines[k] == MaskAgain(lineMaps[..], k, old(maskedLines[k]))
  {
    ghost var maps := lineMaps[..];
    var inIndented := false;
    for i := 0 to lineMaps.Length
      invariant lineMaps[..] == maps
      invariant inIndented == (i > 0 && InIndented(maps, i - 1))
      invariant forall k | 0 <= k < i :: maskedLines[k] == MaskAgain(maps, k, old(maskedLines[k]))
      invariant forall k | i <= k < maskedLines.Length :: maskedLines[k] == old(maskedLines[k])
    {
      var line := lineMaps[i];
      assert line == maps[i] && (i > 0 ==> lineMaps[i - 1] == maps[i - 1]);
      var blank := IsBlank(line);
      if inIndented {
        if blank {
          maskedLines[i] := line;
          inIndented := false;
          continue;
        }
        if HasCodeIndent(line) {
          maskedLines[i] := MaskIndentedCodeLine(line);
          continue;
        }
        inIndented := false;
      }
      if blank {
        maskedLines[i] := line;
        continue;
      }
      if !HasCodeIndent(line) {
        continue;
      }
      if i > 0 && !IsBlank(lineMaps[i - 1]) {
        continue;
      }
      maskedLines[i] := MaskIndentedCodeLine(line);
      inIndented := true;
    }
  }

  /** The first pass over a line, given the fence that is open before it. */
  method MaskFenced(line: bytes, fence: Option<bytes>) returns (masked: bytes, told: bytes, next: Option<bytes>)
    ensures next == NextFence(fence, line)
    ensures masked == FirstMask(fence, line) && told == LineMap(fence, line)
  {
    if fence.Some? {
      masked := MaskLineContent(line);
      told := masked;
      next := if IsFence(line, fence.value) then None else fence;
    } else {
      masked := MaskInlineCode(line);
      told := line;
      next := Opens(line);
    }
  }

  method MaskFences(lines: seq<bytes>) returns (masks: seq<bytes>, maps: seq<bytes>)
    ensures masks == FirstMasks(None, lines) && maps == LineMaps(None, lines)
  {
    masks, maps := [], [];
    var fence := None;
    for i := 0 to |lines|
      invariant FirstMasks(None, lines) == masks + FirstMasks(fence, lines[i..])
      invariant LineMaps(None, lines) == maps + LineMaps(fence, lines[i..])
    {
      FirstPassGoesOn(fence, lines, i, masks, maps);
      var masked, told, next := MaskFenced(lines[i], fence);
      masks, maps, fence := masks + [masked], maps + [told], next;
    }
  }

  lemma FirstPassGoesOn(fence: Option<bytes>, lines: seq<bytes>, i: nat, masks: seq<bytes>, maps: seq<bytes>)
    requires i < |lines|
    ensures var next := NextFence(fence, lines[i]);
            && masks + FirstMasks(fence, lines[i..])
               == masks + [FirstMask(fence, lines[i])] + FirstMasks(next, lines[i + 1..])
            && maps + LineMaps(fence, lines[i..]) == maps + [LineMap(fence, lines[i])] + LineMaps(next, lines[i + 1..])
  {
    assert lines[i..][0] == lines[i] && lines[i..][1..] == lines[i + 1..];
  }

  /** The mask of a message, and the mask without its escaped mentions. */
  method MaskCodeForAddressing(body: bytes) returns (masked: bytes, escaped: bytes)
    ensures masked == Masked(body) && escaped == StripEscaped(masked)
  {
    var lines := LinesOf(body);
    var masks, maps := MaskFences(lines);
    var maskedLines := new bytes[|lines|](i requires 0 <= i < |masks| => masks[i]);
    var lineMaps := new bytes[|lines|](i requires 0 <= i < |maps| => maps[i]);
    assert maskedLines[..] == masks && lineMaps[..] == maps;
    ApplyIndentedCodeMask(maskedLines, lineMaps);
    assert maskedLines[..] == MaskLines(lines);
    masked := JoinLines(maskedLines[..]);
    escaped := StripEscapedMentions(masked);
  }

  method JoinLines(lines: seq<bytes>) returns (body: bytes)
    requires lines != []
    ensures body == Join(lines)
  {
    body := lines[|lines| - 1];
    for i := |lines| - 1 downto 0
      invariant body == Join(lines[i..])
    {
      assert lines[i..][0] == lines[i] && lines[i..][1..] == lines[i + 1..];
      body := lines[i] + ([NEWLINE] + body);
    }
  }
}
