/** Text files as an agent reads and edits them: pages of lines, and replacement of an exact string. */
module Text {
  import opened Strings

  /** `lines[start:end]` for a non-negative `start`; a negative `end` counts from the back. */
  function Slice(lines: seq<string>, start: nat, end: int): seq<string> {
    var last := if end >= |lines| then |lines| else if end >= 0 then end else if end + |lines| >= 0 then end + |lines| else 0;
    if start < last then lines[start..last] else []
  }

  datatype Page = Page(lines: seq<string>, first: nat, last: nat, total: nat)

  /** The page asked for; `offset` counts from 1, and 0 or less means 1. */
  function ReadPage(lines: seq<string>, offset: Option<int>, limit: Option<int>): Page {
    var start := if offset.None? || offset.value <= 1 then 0 else offset.value - 1;
    var sliced := Slice(lines, start, if limit.Some? then start + limit.value else |lines|);
    Page(sliced, start + 1, start + |sliced|, |lines|)
  }

  /** Without offset and limit a page is the whole text; without a limit it is the rest from the offset on. */
  lemma WholePage(lines: seq<string>, from: nat)
    ensures ReadPage(lines, None, None) == Page(lines, 1, |lines|, |lines|)
    ensures 1 <= from <= |lines| ==> ReadPage(lines, Some(from), None) == Page(lines[from - 1..], from, |lines|, |lines|)
    ensures from > |lines| ==> ReadPage(lines, Some(from), None) == Page([], from, from - 1, |lines|)
  {}

  /** Every page is a stretch of the lines. An offset of 0 or less counts as 1; a limit ends the page that many lines on, and if
      that is before the first line, it is counted from the back of the text. */
  lemma PageExactly(lines: seq<string>, offset: Option<int>, limit: Option<int>)
    ensures var p := ReadPage(lines, offset, limit);
            var asked := p.first - 1 + if limit == None then |lines| else limit.value;
            var end := if asked >= 0 then asked else |lines| + asked;
            && p.total == |lines|
            && p.first == (if offset == None || offset.value <= 0 then 1 else offset.value)
            && p.last == (if end < p.first || p.first > |lines| then p.first - 1 else if end > |lines| then |lines| else end)
            && |p.lines| == p.last - (p.first - 1)
            && forall i | 0 <= i < |p.lines| :: p.lines[i] == lines[p.first - 1 + i]
  {}

  function Raw(p: Page): string { Join(p.lines, '\n') }

  /** The pages of `k` lines from the line at offset `from` on. */
  function Pages(lines: seq<string>, k: nat, from: nat): seq<Page>
    requires k >= 1 && from >= 1
    decreases |lines| - from
  {
    if from > |lines| then [] else [ReadPage(lines, Some(from), Some(k))] + Pages(lines, k, from + k)
  }

  function Raws(pages: seq<Page>): seq<string> {
    if pages == [] then [] else [Raw(pages[0])] + Raws(pages[1..])
  }

  /** Ranges that follow one another from line `from` to line `to`, none empty. */
  predicate Partition(pages: seq<Page>, from: nat, to: nat) {
    if pages == [] then from == to + 1
    else pages[0].first == from <= pages[0].last && Partition(pages[1..], pages[0].last + 1, to)
  }

  lemma FullPage(lines: seq<string>, k: nat, from: nat)
    requires k >= 1 && 1 <= from <= |lines|
    ensures var last := if from - 1 + k <= |lines| then from - 1 + k else |lines|;
            ReadPage(lines, Some(from), Some(k)) == Page(lines[from - 1..last], from, last, |lines|)
  {}

  lemma {:induction false} PagesFrom(lines: seq<string>, k: nat, from: nat)
    requires k >= 1 && 1 <= from <= |lines|
    ensures Partition(Pages(lines, k, from), from, |lines|)
    ensures Join(Raws(Pages(lines, k, from)), '\n') == Join(lines[from - 1..], '\n')
    decreases |lines| - from
  {
    hide Slice, Join;
    var page, rest := ReadPage(lines, Some(from), Some(k)), Pages(lines, k, from + k);
    FullPage(lines, k, from);
    assert ([page] + rest)[1..] == rest;
    assert Raws([page] + rest) == [Raw(page)] + Raws(rest);
    if from + k <= |lines| {
      PagesFrom(lines, k, from + k);
      assert lines[from - 1..] == lines[from - 1..from - 1 + k] + lines[from + k - 1..];
      JoinConcat(lines[from - 1..from - 1 + k], lines[from + k - 1..], '\n');
      JoinConcat([Raw(page)], Raws(rest), '\n');
      JoinOne(Raw(page), '\n');
    } else {
      assert rest == [] && [Raw(page)] + [] == [Raw(page)];
      assert lines[from - 1..|lines|] == lines[from - 1..];
      JoinOne(Raw(page), '\n');
    }
  }

  lemma JoinOne(part: string, sep: char)
    ensures Join([part], sep) == part
  {}

  /** Read page by page, whatever the page size, a text comes back whole and every line is reported once. */
  lemma PagesRejoin(text: string, k: nat)
    requires k >= 1
    ensures Join(Raws(Pages(Split(text, '\n'), k, 1)), '\n') == text
    ensures Partition(Pages(Split(text, '\n'), k, 1), 1, |Split(text, '\n')|)
  {
    PagesFrom(Split(text, '\n'), k, 1);
    assert Split(text, '\n')[0..] == Split(text, '\n');
    JoinSplit(text, '\n');
  }

  // Line numbers.

  function Digit(d: nat): char
    requires d < 10
  {
    '0' + d as char
  }

  /** `str(n)`. */
  function Decimal(n: nat): string {
    if n < 10 then [Digit(n)] else Decimal(n / 10) + [Digit(n % 10)]
  }

  lemma {:induction false} DecimalDigits(n: nat)
    ensures Decimal(n) != "" && forall c | c in Decimal(n) :: '0' <= c <= '9'
  {
    if n >= 10 {
      DecimalDigits(n / 10);
    }
  }

  lemma {:induction false} DecimalInjective(m: nat, n: nat)
    requires Decimal(m) == Decimal(n)
    ensures m == n
  {
    DecimalDigits(m / 10);
    DecimalDigits(n / 10);
    if m >= 10 && n >= 10 {
      assert Decimal(m)[..|Decimal(m)| - 1] == Decimal(m / 10) && Decimal(n)[..|Decimal(n)| - 1] == Decimal(n / 10);
      DecimalInjective(m / 10, n / 10);
      assert Decimal(m)[|Decimal(m)| - 1] == Digit(m % 10) && Decimal(n)[|Decimal(n)| - 1] == Digit(n % 10);
    }
  }

  /** The number that digits stand for. */
  function Number(digits: string): int {
    if digits == "" then 0
    else Number(digits[..|digits| - 1]) * 10 + (digits[|digits| - 1] as int - '0' as int)
  }

  /** The digits read as the number they stand for, without leading zeros. */
  lemma {:induction false} DecimalExactly(n: nat)
    ensures forall c | c in Decimal(n) :: '0' <= c <= '9'
    ensures Decimal(n) != "" && Number(Decimal(n)) == n && (Decimal(n)[0] == '0' ==> n == 0 && |Decimal(n)| == 1)
  {
    DecimalDigits(n);
    if n < 10 {
      assert Decimal(n) == [Digit(n)] && Decimal(n)[..0] == "";
    } else {
      DecimalExactly(n / 10);
      assert Decimal(n)[..|Decimal(n)| - 1] == Decimal(n / 10);
    }
  }

  /** Right-aligned in six columns. */
  function Padded(s: string): string
    decreases 6 - |s|
  {
    if |s| >= 6 then s else Padded([' '] + s)
  }

  /** At least six columns, the text at the right, blanks before it. */
  lemma {:induction false} PaddedExactly(s: string)
    ensures var blanks := |Padded(s)| - |s|;
            && 0 <= blanks && |Padded(s)| == (if |s| < 6 then 6 else |s|)
            && Padded(s)[blanks..] == s && forall i | 0 <= i < blanks :: Padded(s)[i] == ' '
    decreases 6 - |s|
  {
    if |s| < 6 {
      PaddedExactly([' '] + s);
      var all := Padded(s);
      assert all[5 - |s|..] == [' '] + s;
      assert all[6 - |s|..] == ([' '] + s)[1..] && all[5 - |s|] == ' ';
    }
  }

  lemma {:induction false} PaddedFree(s: string, c: char)
    requires c !in s && c != ' '
    ensures c !in Padded(s)
    decreases 6 - |s|
  {
    if |s| < 6 {
      PaddedFree([' '] + s, c);
    }
  }

  function NumberedLine(n: nat, line: string): string { Padded(Decimal(n)) + ['\t'] + line }

  function NumberedLines(p: Page): seq<string> {
    seq(|p.lines|, i requires 0 <= i < |p.lines| => NumberedLine(p.first + i, p.lines[i]))
  }

  function Numbered(p: Page): string { Join(NumberedLines(p), '\n') }

  lemma NumberedLineSplits(n: nat, line: string)
    requires '\n' !in line
    ensures SplitFirst(NumberedLine(n, line), '\t') == Some((Padded(Decimal(n)), line)) && '\n' !in NumberedLine(n, line)
  {
    DecimalDigits(n);
    PaddedFree(Decimal(n), '\t');
    PaddedFree(Decimal(n), '\n');
    SplitFirstParts(Padded(Decimal(n)), '\t', line);
  }

  lemma NumberedSplits(p: Page)
    requires p.lines != [] && Free(p.lines, '\n')
    ensures Split(Numbered(p), '\n') == NumberedLines(p)
  {
    forall j | 0 <= j < |p.lines| ensures '\n' !in NumberedLines(p)[j] {
      NumberedLineSplits(p.first + j, p.lines[j]);
    }
    SplitJoin(NumberedLines(p), '\n');
  }

  /** Every line of a numbered page can be read off it, tabs and all, with its own number. */
  lemma NumberedReadsBack(text: string, offset: Option<int>, limit: Option<int>, i: nat)
    requires i < |ReadPage(Split(text, '\n'), offset, limit).lines|
    ensures var p := ReadPage(Split(text, '\n'), offset, limit);
            && i < |Split(Numbered(p), '\n')|
            && SplitFirst(Split(Numbered(p), '\n')[i], '\t')
            == Some((Padded(Decimal(p.first + i)), Split(text, '\n')[p.first - 1 + i]))
  {
    hide Split, SplitFirst, Numbered, Padded, Decimal, Join;
    var p := ReadPage(Split(text, '\n'), offset, limit);
    JoinSplit(text, '\n');
    NumberedSplits(p);
    NumberedLineSplits(p.first + i, p.lines[i]);
  }

  // Replacement.

  predicate At(s: string, target: string, i: nat) { i + |target| <= |s| && s[i..i + |target|] == target }

  /** What is left between the occurrences `count` and `replace` see: leftmost first, not overlapping. */
  function Pieces(s: string, target: string): (pieces: seq<string>)
    requires target != ""
    ensures pieces != []
  {
    if |s| < |target| then [s]
    else if s[..|target|] == target then [""] + Pieces(s[|target|..], target)
    else var rest := Pieces(s[1..], target); [[s[0]] + rest[0]] + rest[1..]
  }

  /** `s.count(target)`. */
  function Count(s: string, target: string): nat
    requires target != ""
  {
    |Pieces(s, target)| - 1
  }

  function Glue(pieces: seq<string>, sep: string): string {
    if pieces == [] then "" else if |pieces| == 1 then pieces[0] else pieces[0] + sep + Glue(pieces[1..], sep)
  }

  /** `s.replace(target, new)`. */
  function ReplaceAll(s: string, target: string, substitute: string): string
    requires target != ""
  {
    Glue(Pieces(s, target), substitute)
  }

  /** `s.replace(target, new, 1)`. */
  function ReplaceFirst(s: string, target: string, substitute: string): string
    requires target != ""
  {
    var pieces := Pieces(s, target);
    if |pieces| == 1 then s else pieces[0] + substitute + Glue(pieces[1..], target)
  }

  lemma GlueSecond(first: string, rest: seq<string>, sep: string)
    requires rest != []
    ensures Glue([first] + rest, sep) == first + sep + Glue(rest, sep)
  {}

  lemma GlueLonger(c: char, pieces: seq<string>, sep: string)
    requires pieces != []
    ensures Glue([[c] + pieces[0]] + pieces[1..], sep) == [c] + Glue(pieces, sep)
  {}

  /** The pieces with the target between them are the text. */
  lemma {:induction false} GluePieces(s: string, target: string)
    requires target != ""
    ensures Glue(Pieces(s, target), target) == s
  {
    if |s| >= |target| {
      hide Glue;
      if s[..|target|] == target {
        GluePieces(s[|target|..], target);
        GlueSecond("", Pieces(s[|target|..], target), target);
      } else {
        GluePieces(s[1..], target);
        GlueLonger(s[0], Pieces(s[1..], target), target);
      }
    }
  }

  lemma AtShifts(s: string, target: string, n: nat, i: nat)
    requires n <= |s|
    ensures At(s, target, n + i) <==> At(s[n..], target, i)
  {}

  /** The first piece ends where the target first occurs, overlapping occurrences included. */
  ghost predicate FoundFirst(s: string, target: string, pieces: seq<string>)
    requires target != "" && pieces != []
  {
    if |pieces| == 1 then forall i: nat :: !At(s, target, i)
    else
      var n := |pieces[0]|;
      At(s, target, n) && (forall i: nat | i < n :: !At(s, target, i)) && pieces[1..] == Pieces(s[n + |target|..], target)
  }

  lemma {:induction false} FirstOccurrence(s: string, target: string)
    requires target != ""
    ensures FoundFirst(s, target, Pieces(s, target))
  {
    if |s| >= |target| && s[..|target|] != target {
      FirstOccurrence(s[1..], target);
      FoundLater(s, target, Pieces(s[1..], target));
    }
  }

  lemma FoundLater(s: string, target: string, rest: seq<string>)
    requires target != "" && rest != [] && |s| >= |target| && s[..|target|] != target
    requires FoundFirst(s[1..], target, rest)
    ensures FoundFirst(s, target, [[s[0]] + rest[0]] + rest[1..])
  {
    hide At, Pieces;
    forall i: nat | i > 0 ensures At(s, target, i) <==> At(s[1..], target, i - 1) {
      AtShifts(s, target, 1, i - 1);
    }
    NotAtStart(s, target);
    if |rest| > 1 {
      assert At(s, target, |rest[0]| + 1);
      AtEnds(s[1..], target, |rest[0]|);
      assert s[1..][|rest[0]| + |target|..] == s[1 + |rest[0]| + |target|..];
    }
  }

  lemma NotAtStart(s: string, target: string)
    requires |s| >= |target| && s[..|target|] != target
    ensures !At(s, target, 0)
  {}

  lemma AtEnds(s: string, target: string, i: nat)
    requires At(s, target, i)
    ensures i + |target| <= |s|
  {}

  /** Nothing found means nothing there; otherwise there is an occurrence. */
  lemma CountZeroExactly(s: string, target: string)
    requires target != ""
    ensures Count(s, target) == 0 <==> forall i: nat :: !At(s, target, i)
  {
    FirstOccurrence(s, target);
  }

  /** With a count of 1 there may be further occurrences, but only ones that overlap the first. */
  lemma OnceUpToOverlap(s: string, target: string, i: nat)
    requires target != "" && Count(s, target) == 1 && At(s, target, i)
    ensures |Pieces(s, target)[0]| <= i < |Pieces(s, target)[0]| + |target|
  {
    FirstOccurrence(s, target);
    hide Pieces, At;
    var n := |Pieces(s, target)[0]|;
    if i >= n + |target| {
      AtEnds(s, target, n);
      NothingBehind(s, target, n + |target|, i);
    }
  }

  lemma NothingBehind(s: string, target: string, from: nat, i: nat)
    requires target != "" && from <= i && from <= |s| && |Pieces(s[from..], target)| == 1
    ensures !At(s, target, i)
  {
    FirstOccurrence(s[from..], target);
    AtShifts(s, target, from, i - from);
    hide Pieces, At;
  }

  /** A proper prefix of `t` that is also its suffix: two occurrences of `t` can overlap. */
  ghost predicate Bordered(t: string) {
    exists b: nat :: IsBorder(t, b)
  }

  predicate IsBorder(t: string, b: nat) { 0 < b < |t| && t[..b] == t[|t| - b..] }

  /** Two occurrences that overlap make a border. */
  lemma OverlapIsBorder(s: string, t: string, i: nat, j: nat)
    requires At(s, t, i) && At(s, t, j) && i < j < i + |t|
    ensures Bordered(t)
  {
    var b := i + |t| - j;
    assert t[|t| - b..] == s[j..i + |t|] == t[..b];
    assert IsBorder(t, b);
  }

  /** A string with a border is counted once, but stands at two places, in the text that laps it over itself. */
  lemma CountedOnceTwoPlaces(t: string, b: nat) returns (s: string)
    requires IsBorder(t, b)
    ensures Count(s, t) == 1 && At(s, t, 0) && At(s, t, |t| - b)
  {
    s := t + t[b..];
    assert s[|t|..] == t[b..] && s[..|t|] == t;
    assert Pieces(t[b..], t) == [t[b..]];
    assert s[|t| - b..] == t[|t| - b..] + t[b..] == t[..b] + t[b..] == t;
  }

  ghost predicate OnePlace(s: string, t: string) {
    forall i: nat, j: nat :: At(s, t, i) && At(s, t, j) ==> i == j
  }

  /** A count of one means one place, in every text, if and only if the string has no border. */
  lemma CountedOnceIsUniqueExactly(t: string)
    requires t != ""
    ensures (forall s :: Count(s, t) == 1 ==> OnePlace(s, t)) <==> !Bordered(t)
  {
    if b: nat :| IsBorder(t, b) {
      var s := CountedOnceTwoPlaces(t, b);
      assert !OnePlace(s, t);
    } else {
      forall s | Count(s, t) == 1 ensures OnePlace(s, t) {
        NoBorderOnePlace(s, t);
      }
    }
  }

  lemma NoBorderOnePlace(s: string, t: string)
    requires t != "" && Count(s, t) == 1 && !Bordered(t)
    ensures OnePlace(s, t)
  {
    forall i: nat, j: nat | At(s, t, i) && At(s, t, j) ensures i == j {
      OnceUpToOverlap(s, t, i);
      OnceUpToOverlap(s, t, j);
      if i < j {
        OverlapIsBorder(s, t, i, j);
      } else if j < i {
        OverlapIsBorder(s, t, j, i);
      }
    }
  }

  /** Counted once: replacing the first is replacing all, and only that stretch of the text changes. */
  lemma ReplacedOnce(s: string, target: string, substitute: string)
    requires target != "" && Count(s, target) == 1
    ensures ReplaceFirst(s, target, substitute) == ReplaceAll(s, target, substitute)
    ensures var n := |Pieces(s, target)[0]|;
            At(s, target, n) && ReplaceFirst(s, target, substitute) == s[..n] + substitute + s[n + |target|..]
  {
    hide Pieces, Glue;
    FirstOccurrence(s, target);
    GluePieces(s, target);
    var pieces := Pieces(s, target);
    assert pieces == [pieces[0], pieces[1]];
    GlueTwo(pieces[0], pieces[1], target);
    GlueTwo(pieces[0], pieces[1], substitute);
    GlueOne(pieces[1], target);
    assert pieces[1..] == [pieces[1]];
    assert s[..|pieces[0]|] == pieces[0] && s[|pieces[0]| + |target|..] == pieces[1];
  }

  /** An edit at the one place where the target stands. */
  ghost predicate EditedAt(s: string, target: string, substitute: string, edited: string, n: nat) {
    (forall i: nat :: At(s, target, i) <==> i == n) && n + |target| <= |s| && edited == s[..n] + substitute + s[n + |target|..]
  }

  /** Counted once and without a border, the target is replaced at the only place where it stands. */
  lemma ReplacedAtOnlyPlace(s: string, target: string, substitute: string) returns (n: nat)
    requires target != "" && Count(s, target) == 1 && !Bordered(target)
    ensures EditedAt(s, target, substitute, ReplaceFirst(s, target, substitute), n)
  {
    n := |Pieces(s, target)[0]|;
    ReplacedOnce(s, target, substitute);
    NoBorderOnePlace(s, target);
    hide Pieces, ReplaceFirst, ReplaceAll, Bordered;
    AtEnds(s, target, n);
  }

  lemma GlueOne(piece: string, sep: string)
    ensures Glue([piece], sep) == piece
  {}

  lemma GlueTwo(a: string, b: string, sep: string)
    ensures Glue([a, b], sep) == a + sep + b
  {}

  /** The first occurrence, and none before it. */
  ghost predicate FirstAt(s: string, target: string, n: nat) {
    At(s, target, n) && forall i: nat | i < n :: !At(s, target, i)
  }

  /** What to replace is found from left to right, each time behind the occurrence before; what does not occur stays. */
  lemma ReplacedExactly(s: string, target: string, substitute: string)
    requires target != ""
    ensures forall n: nat :: FirstAt(s, target, n) ==>
              && n + |target| <= |s| && Count(s, target) == 1 + Count(s[n + |target|..], target)
              && ReplaceFirst(s, target, substitute) == s[..n] + substitute + s[n + |target|..]
              && ReplaceAll(s, target, substitute) == s[..n] + substitute + ReplaceAll(s[n + |target|..], target, substitute)
    ensures (forall i: nat :: !At(s, target, i)) ==>
              Count(s, target) == 0 && ReplaceFirst(s, target, substitute) == s && ReplaceAll(s, target, substitute) == s
  {
    FirstOccurrence(s, target);
    GluePieces(s, target);
    var pieces := Pieces(s, target);
    if |pieces| == 1 {
      hide Pieces, At;
      assert pieces == [pieces[0]];
      GlueOne(pieces[0], target);
      GlueOne(pieces[0], substitute);
    } else {
      var n := |pieces[0]|;
      AtEnds(s, target, n);
      hide Pieces, At;
      forall m: nat | FirstAt(s, target, m) ensures m == n {}
      var rest := s[n + |target|..];
      GluePieces(rest, target);
      assert pieces == [pieces[0]] + pieces[1..];
      GlueSecond(pieces[0], pieces[1..], target);
      GlueSecond(pieces[0], pieces[1..], substitute);
      assert s == pieces[0] + target + rest;
      assert s[..n] == pieces[0];
    }
  }

  /** Replacing by the target itself changes nothing; replacing everywhere grows the text by the difference each time. */
  lemma ReplaceAllLength(s: string, target: string, substitute: string)
    requires target != ""
    ensures ReplaceAll(s, target, target) == s
    ensures |ReplaceAll(s, target, substitute)| == |s| + Count(s, target) * (|substitute| - |target|)
  {
    GluePieces(s, target);
    GlueLength(Pieces(s, target), target, substitute);
  }

  lemma {:induction false} GlueLength(pieces: seq<string>, a: string, b: string)
    requires pieces != []
    ensures |Glue(pieces, b)| == |Glue(pieces, a)| + (|pieces| - 1) * (|b| - |a|)
  {
    if |pieces| > 1 {
      GlueLength(pieces[1..], a, b);
    }
  }
}
