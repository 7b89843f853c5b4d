/** Greedy word wrap of help paragraphs (`wrap_words` in `src/cli.rs`). */
module WordWrap {
  import opened Sequences

  // ----- Text -----

  /** The Unicode White_Space property, as `str::split_whitespace` uses it. */
  predicate IsSpace(c: char) {
    var u := c as int;
    || 0x09 <= u <= 0x0D || u == 0x20 || u == 0x85 || u == 0xA0 || u == 0x1680 || 0x2000 <= u <= 0x200A
    || u == 0x2028 || u == 0x2029 || u == 0x202F || u == 0x205F || u == 0x3000
  }

  /** The same code points, one by one. */
  const WHITE_SPACE := [
    0x9, 0xA, 0xB, 0xC, 0xD, 0x20, 0x85, 0xA0, 0x1680, 0x2000, 0x2001, 0x2002, 0x2003, 0x2004, 0x2005, 0x2006, 0x2007,
    0x2008, 0x2009, 0x200A, 0x2028, 0x2029, 0x202F, 0x205F, 0x3000]

  lemma SpacesAreListed(c: char)
    ensures IsSpace(c) <==> c as int in WHITE_SPACE
  {
    var w := WHITE_SPACE;
    assert w[0] == 0x9 && w[1] == 0xA && w[2] == 0xB && w[3] == 0xC && w[4] == 0xD && w[5] == 0x20 && w[6] == 0x85;
    assert w[7] == 0xA0 && w[8] == 0x1680 && w[9] == 0x2000 && w[10] == 0x2001 && w[11] == 0x2002 && w[12] == 0x2003;
    assert w[13] == 0x2004 && w[14] == 0x2005 && w[15] == 0x2006 && w[16] == 0x2007 && w[17] == 0x2008;
    assert w[18] == 0x2009 && w[19] == 0x200A && w[20] == 0x2028 && w[21] == 0x2029 && w[22] == 0x202F;
    assert w[23] == 0x205F && w[24] == 0x3000;
  }

  /** `str::len`: the number of UTF-8 bytes. */
  function Len(s: string): nat {
    if s == "" then 0 else Len(s[..|s| - 1]) + CharLen(s[|s| - 1])
  }

  function CharLen(c: char): nat {
    var u := c as int;
    if u < 0x80 then 1 else if u < 0x800 then 2 else if u < 0x10000 then 3 else 4
  }

  // ----- What `Len` counts -----

  /** The UTF-8 form of a character, as in section 3 of RFC 3629. */
  function Utf8Char(c: char): seq<int> {
    var u := c as int;
    if u < 0x80 then [u]
    else if u < 0x800 then [0xC0 + u / 0x40, Tail(u, 1)]
    else if u < 0x10000 then [0xE0 + u / 0x1000, Tail(u, 0x40), Tail(u, 1)]
    else [0xF0 + u / 0x40000, Tail(u, 0x1000), Tail(u, 0x40), Tail(u, 1)]
  }

  function Tail(u: nat, unit: nat): int
    requires unit > 0
  {
    0x80 + u / unit % 0x40
  }

  function Utf8(s: string): seq<int> {
    if s == "" then [] else Utf8(s[..|s| - 1]) + Utf8Char(s[|s| - 1])
  }

  /** The code point that bytes stand for: the first tells how many there are. */
  function Decoded(bytes: seq<int>): int {
    if |bytes| == 1 && 0 <= bytes[0] < 0x80 then bytes[0]
    else if |bytes| == 2 && 0xC2 <= bytes[0] < 0xE0 then (bytes[0] - 0xC0) * 0x40 + (bytes[1] - 0x80)
    else if |bytes| == 3 && 0xE0 <= bytes[0] < 0xF0 then
      ((bytes[0] - 0xE0) * 0x40 + (bytes[1] - 0x80)) * 0x40 + (bytes[2] - 0x80)
    else if |bytes| == 4 && 0xF0 <= bytes[0] <= 0xF4 then
      (((bytes[0] - 0xF0) * 0x40 + (bytes[1] - 0x80)) * 0x40 + (bytes[2] - 0x80)) * 0x40 + (bytes[3] - 0x80)
    else -1
  }

  lemma SixBits(u: nat)
    ensures u / 0x40 * 0x40 + u % 0x40 == u && u / 0x40 / 0x40 == u / 0x1000 && u / 0x1000 / 0x40 == u / 0x40000
  {
  }

  /** The form decodes to the character, and every byte after the first is a continuation byte. */
  lemma Utf8RoundTrip(c: char)
    ensures Decoded(Utf8Char(c)) == c as int
    ensures forall i | 0 < i < |Utf8Char(c)| :: 0x80 <= Utf8Char(c)[i] < 0xC0
  {
    SixBits(c as int);
  }

  lemma {:induction false} LenIsUtf8(s: string)
    ensures Len(s) == |Utf8(s)|
  {
    if s != "" { LenIsUtf8(s[..|s| - 1]); }
  }

  predicate Ascii(s: string) {
    forall i | 0 <= i < |s| :: s[i] as int < 0x80
  }

  /** The length is the number of characters for ASCII text and for no other. */
  lemma {:induction false} LenIsCountIff(s: string)
    ensures Len(s) >= |s| && (Len(s) == |s| <==> Ascii(s))
  {
    if s != "" {
      LenIsCountIff(s[..|s| - 1]);
    }
  }

  predicate IsWord(s: string) {
    s != "" && forall c | c in s :: !IsSpace(c)
  }

  /** `str::split_whitespace`. */
  function Words(s: string): seq<string> {
    if s == "" then []
    else if IsSpace(s[0]) then Words(s[1..])
    else var n := WordLength(s); [s[..n]] + Words(s[n..])
  }

  lemma {:induction false} WordsAreWords(s: string)
    ensures forall w | w in Words(s) :: IsWord(w)
  {
    if s != "" {
      if IsSpace(s[0]) { WordsAreWords(s[1..]); } else { WordsAreWords(s[WordLength(s)..]); }
    }
  }

  function WordLength(s: string): (n: nat)
    ensures n <= |s| && (forall c | c in s[..n] :: !IsSpace(c))
    ensures n < |s| ==> IsSpace(s[n])
    ensures s != "" && !IsSpace(s[0]) ==> n > 0
  {
    if s == "" || IsSpace(s[0]) then 0 else
      var n := 1 + WordLength(s[1..]);
      assert s[..n] == [s[0]] + s[1..][..n - 1];
      n
  }

  /** The words of one line, one space apart. */
  function Join(words: seq<string>): string {
    if words == [] then ""
    else if |words| == 1 then words[0]
    else Join(words[..|words| - 1]) + " " + words[|words| - 1]
  }

  // ----- Layouts -----

  /** How a paragraph is broken: the words of each line. */
  type Layout = seq<seq<string>>

  function Flatten(layout: Layout): seq<string> {
    if layout == [] then [] else layout[0] + Flatten(layout[1..])
  }

  predicate LineFits(line: seq<string>, width: nat) {
    |line| == 1 || (line != [] && Len(Join(line)) <= width)
  }

  /** The rule every layout obeys: all the words, in order, and no line over the
      width unless it is a single word. */
  predicate IsLayout(words: seq<string>, width: nat, layout: Layout) {
    Flatten(layout) == words && forall line | line in layout :: LineFits(line, width)
  }

  function Render(layout: Layout): seq<string> {
    seq(|layout|, i requires 0 <= i < |layout| => Join(layout[i]))
  }

  /** How many words the first line takes, when `k` of them occupy `used` bytes. */
  function FirstLine(words: seq<string>, width: nat, k: nat, used: nat): (n: nat)
    requires k <= |words|
    ensures k <= n <= |words|
    decreases |words| - k
  {
    if k < |words| && used + 1 + Len(words[k]) <= width
    then FirstLine(words, width, k + 1, used + 1 + Len(words[k]))
    else k
  }

  function Greedy(words: seq<string>, width: nat): Layout {
    if words == [] then []
    else
      var n := FirstLine(words, width, 1, Len(words[0]));
      [words[..n]] + Greedy(words[n..], width)
  }

  // ----- Lengths -----

  lemma {:induction false} LenConcat(a: string, b: string)
    ensures Len(a + b) == Len(a) + Len(b)
  {
    if b == "" {
      assert a + b == a;
    } else {
      LenConcat(a, b[..|b| - 1]);
      assert (a + b)[..|a + b| - 1] == a + b[..|b| - 1];
    }
  }

  lemma JoinSnoc(words: seq<string>, w: string)
    requires words != []
    ensures Join(words + [w]) == Join(words) + " " + w
    ensures Len(Join(words + [w])) == Len(Join(words)) + 1 + Len(w)
  {
    assert (words + [w])[..|words|] == words;
    LenConcat(Join(words) + " ", w);
    LenConcat(Join(words), " ");
    assert Len(" ") == Len("") + 1;
  }

  lemma JoinPrefix(words: seq<string>, k: nat)
    requires 1 <= k < |words|
    ensures Len(Join(words[..k + 1])) == Len(Join(words[..k])) + 1 + Len(words[k])
  {
    assert words[..k + 1] == words[..k] + [words[k]];
    JoinSnoc(words[..k], words[k]);
  }

  lemma {:induction false} JoinShrinksBack(words: seq<string>, m: nat)
    requires 1 <= m <= |words|
    ensures Len(Join(words[..m])) <= Len(Join(words))
    decreases |words| - m
  {
    if m < |words| {
      JoinPrefix(words, m);
      JoinShrinksBack(words, m + 1);
    } else {
      assert words[..m] == words;
    }
  }

  lemma {:induction false} JoinShrinksFront(words: seq<string>)
    requires |words| >= 2
    ensures Len(Join(words[1..])) <= Len(Join(words))
  {
    var init, w := words[..|words| - 1], words[|words| - 1];
    assert words == init + [w];
    JoinSnoc(init, w);
    if |words| > 2 {
      JoinShrinksFront(init);
      assert words[1..] == init[1..] + [w];
      JoinSnoc(init[1..], w);
    } else {
      assert words[1..] == [w];
    }
  }

  // ----- Greedy lines are as long as the rule allows -----

  /** `size(k)` is the length of the first `k` words on one line. */
  ghost predicate Grows(words: seq<string>, size: nat -> nat) {
    forall k: nat | 1 <= k < |words| :: size(k + 1) == size(k) + 1 + Len(words[k])
  }

  lemma {:induction false} FirstLineIsLongest(words: seq<string>, width: nat, k: nat, size: nat -> nat)
    requires 1 <= k <= |words| && Grows(words, size) && (k == 1 || size(k) <= width)
    ensures var n := FirstLine(words, width, k, size(k));
            (n == 1 || size(n) <= width) && (n < |words| ==> size(n + 1) > width)
    decreases |words| - k
  {
    if k < |words| && size(k) + 1 + Len(words[k]) <= width {
      FirstLineIsLongest(words, width, k + 1, size);
    }
  }

  function PrefixSize(words: seq<string>, k: nat): nat {
    if k <= |words| then Len(Join(words[..k])) else 0
  }

  lemma PrefixGrows(words: seq<string>)
    ensures Grows(words, k => PrefixSize(words, k))
  {
    forall k: nat | 1 <= k < |words| ensures PrefixSize(words, k + 1) == PrefixSize(words, k) + 1 + Len(words[k]) {
      JoinPrefix(words, k);
    }
  }

  predicate Stops(words: seq<string>, width: nat, n: nat) {
    n < |words| ==> Len(Join(words[..n + 1])) > width
  }

  lemma GreedyFirstLine(words: seq<string>, width: nat) returns (n: nat)
    requires words != []
    ensures 1 <= n <= |words| && Greedy(words, width) == [words[..n]] + Greedy(words[n..], width)
    ensures LineFits(words[..n], width) && Stops(words, width, n)
  {
    assert PrefixSize(words, 1) == Len(words[0]) by { assert Join(words[..1]) == words[0]; }
    n := FirstLine(words, width, 1, Len(words[0]));
    PrefixGrows(words);
    FirstLineIsLongest(words, width, 1, k => PrefixSize(words, k));
  }

  lemma {:induction false} GreedyIsLayout(words: seq<string>, width: nat)
    ensures IsLayout(words, width, Greedy(words, width))
  {
    if words != [] {
      var n := GreedyFirstLine(words, width);
      GreedyIsLayout(words[n..], width);
      assert Greedy(words, width)[1..] == Greedy(words[n..], width);
      assert words[..n] + words[n..] == words;
    }
  }

  // ----- Greedy is optimal -----

  lemma ShorterLineFits(line: seq<string>, width: nat)
    requires |line| >= 2 && LineFits(line, width)
    ensures LineFits(line[1..], width)
  {
    JoinShrinksFront(line);
  }

  lemma FlattenCons(line: seq<string>, below: Layout)
    ensures Flatten([line] + below) == line + Flatten(below)
  {
    assert ([line] + below)[1..] == below;
  }

  /** Any layout still obeys the rule, on no more lines, after losing its first word. */
  lemma DropWord(words: seq<string>, width: nat, layout: Layout) returns (rest: Layout)
    requires words != [] && IsLayout(words, width, layout)
    ensures IsLayout(words[1..], width, rest) && |rest| <= |layout|
  {
    var line, below := layout[0], layout[1..];
    assert line in layout;
    if |line| == 1 {
      rest := below;
      assert words[1..] == Flatten(below);
    } else {
      rest := [line[1..]] + below;
      ShorterLineFits(line, width);
      FlattenCons(line[1..], below);
      assert words[1..] == line[1..] + Flatten(below);
    }
  }

  lemma {:induction false} DropWords(words: seq<string>, width: nat, layout: Layout, n: nat) returns (rest: Layout)
    requires n <= |words| && IsLayout(words, width, layout)
    ensures IsLayout(words[n..], width, rest) && |rest| <= |layout|
    decreases n
  {
    if n == 0 {
      rest := layout;
      assert words[n..] == words;
    } else {
      rest := DropWord(words, width, layout);
      rest := DropWords(words[1..], width, rest, n - 1);
      assert words[1..][n - 1..] == words[n..];
    }
  }

  lemma FirstLineOf(words: seq<string>, width: nat, layout: Layout)
    requires words != [] && IsLayout(words, width, layout)
    ensures layout != [] && LineFits(layout[0], width) && 1 <= |layout[0]| <= |words|
            && layout[0] == words[..|layout[0]|]
    ensures IsLayout(words[|layout[0]|..], width, layout[1..])
  {
    assert layout[0] in layout;
    assert words[|layout[0]|..] == Flatten(layout[1..]);
  }

  /** A line that may begin at the first word ends no later than the greedy one. */
  lemma GreedyReachesFarthest(words: seq<string>, width: nat, n: nat, m: nat)
    requires 1 <= n <= |words| && Stops(words, width, n) && 1 <= m <= |words| && LineFits(words[..m], width)
    ensures m <= n
  {
    if n < m {
      assert words[..m][..n + 1] == words[..n + 1];
      JoinShrinksBack(words[..m], n + 1);
    }
  }

  /** After the first greedy line, any layout leaves one for the other words, a line shorter. */
  lemma AfterGreedyLine(words: seq<string>, width: nat, other: Layout) returns (n: nat, rest: Layout)
    requires words != [] && IsLayout(words, width, other)
    ensures 1 <= n <= |words| && Greedy(words, width) == [words[..n]] + Greedy(words[n..], width)
    ensures IsLayout(words[n..], width, rest) && |rest| < |other|
  {
    n := GreedyFirstLine(words, width);
    FirstLineOf(words, width, other);
    var m := |other[0]|;
    GreedyReachesFarthest(words, width, n, m);
    rest := DropWords(words[m..], width, other[1..], n - m);
    assert words[m..][n - m..] == words[n..];
  }

  /** No layout obeying the rule has fewer lines. */
  lemma {:induction false} GreedyIsOptimal(words: seq<string>, width: nat, other: Layout)
    requires IsLayout(words, width, other)
    ensures |Greedy(words, width)| <= |other|
    decreases |words|
  {
    if words != [] {
      var n, rest := AfterGreedyLine(words, width, other);
      GreedyIsOptimal(words[n..], width, rest);
    }
  }

  // ----- Splitting undoes joining -----

  lemma {:induction false} WordLengthOf(w: string, rest: string)
    requires (forall c | c in w :: !IsSpace(c)) && (rest == "" || IsSpace(rest[0]))
    ensures WordLength(w + rest) == |w|
  {
    if w != "" {
      assert (w + rest)[1..] == w[1..] + rest;
      WordLengthOf(w[1..], rest);
    } else {
      assert w + rest == rest;
    }
  }

  lemma WordsCons(w: string, rest: string)
    requires IsWord(w) && (rest == "" || IsSpace(rest[0]))
    ensures Words(w + rest) == [w] + Words(rest)
  {
    WordLengthOf(w, rest);
    assert w[0] in w;
    assert (w + rest)[..|w|] == w && (w + rest)[|w|..] == rest;
  }

  lemma Reassociate(a: string, b: string, c: string, d: string)
    ensures a + b + c + d == a + (b + (c + d))
  {
  }

  lemma WordAfterSpace(w: string, rest: string)
    requires IsWord(w) && (rest == "" || IsSpace(rest[0]))
    ensures Words(" " + (w + rest)) == [w] + Words(rest)
  {
    WordsSkip(' ', w + rest);
    WordsCons(w, rest);
  }

  /** One line followed by more text: its words come back first. */
  lemma {:induction false} WordsOfJoin(words: seq<string>, rest: string)
    requires WordLine(words) && (rest == "" || IsSpace(rest[0]))
    ensures Words(Join(words) + rest) == words + Words(rest)
    decreases |words|
  {
    var init, w := words[..|words| - 1], words[|words| - 1];
    assert w in words;
    if |words| == 1 {
      WordsCons(w, rest);
      assert words == [w];
    } else {
      assert WordLine(init);
      WordsOfJoin(init, " " + (w + rest));
      WordAfterSpace(w, rest);
      Regroup(init, [w], Words(rest));
      Reassociate(Join(init), " ", w, rest);
      assert words == init + [w];
    }
  }

  lemma WordsSkip(c: char, rest: string)
    requires IsSpace(c)
    ensures Words([c] + rest) == Words(rest)
  {
    assert ([c] + rest)[1..] == rest;
  }

  /** The lines of a help description, one under the other. */
  function Lines(lines: seq<string>): string {
    if lines == [] then "" else lines[0] + "\n" + Lines(lines[1..])
  }

  predicate WordLine(line: seq<string>) {
    line != [] && forall w | w in line :: IsWord(w)
  }

  lemma {:induction false} WordsOfLines(layout: Layout)
    requires forall line | line in layout :: WordLine(line)
    ensures Words(Lines(Render(layout))) == Flatten(layout)
  {
    if layout != [] {
      assert Render(layout)[1..] == Render(layout[1..]);
      WordsOfLines(layout[1..]);
      var rest := "\n" + Lines(Render(layout[1..]));
      assert Lines(Render(layout)) == Join(layout[0]) + rest;
      assert rest[1..] == Lines(Render(layout[1..]));
      assert layout[0] in layout;
      WordsOfJoin(layout[0], rest);
    }
  }

  lemma {:induction false} LayoutWords(words: seq<string>, width: nat, layout: Layout)
    requires (forall w | w in words :: IsWord(w)) && IsLayout(words, width, layout)
    ensures forall line | line in layout :: WordLine(line)
  {
    if layout != [] {
      assert layout[0] in layout;
      assert layout[0] == words[..|layout[0]|];
      assert words[|layout[0]|..] == Flatten(layout[1..]);
      LayoutWords(words[|layout[0]|..], width, layout[1..]);
    }
  }

  // ----- The wrap -----

  function Wrap(paragraph: string, width: nat): seq<string> {
    Render(Greedy(Words(paragraph), width))
  }

  lemma {:induction false} WordsAreCut(s: string)
    ensures forall w, c | w in Words(s) && c in w :: c in s
  {
    if s != "" {
      if IsSpace(s[0]) { WordsAreCut(s[1..]); } else { WordsAreCut(s[WordLength(s)..]); }
    }
  }

  lemma {:induction false} JoinIsAscii(words: seq<string>)
    requires forall w | w in words :: Ascii(w)
    ensures Ascii(Join(words))
  {
    if |words| > 1 { JoinIsAscii(words[..|words| - 1]); }
    if words != [] { assert words[|words| - 1] in words; }
  }

  lemma {:induction false} InFlatten(layout: Layout, line: seq<string>, w: string)
    requires line in layout && w in line
    ensures w in Flatten(layout)
  {
    if line != layout[0] { InFlatten(layout[1..], line, w); }
  }

  predicate OnlyBlanks(text: string) {
    forall i | 0 <= i < |text| && IsSpace(text[i]) :: text[i] == ' '
  }

  lemma {:induction false} JoinHasOnlyBlanks(words: seq<string>)
    requires forall w | w in words :: IsWord(w)
    ensures OnlyBlanks(Join(words))
  {
    if |words| > 1 { JoinHasOnlyBlanks(words[..|words| - 1]); }
    if words != [] {
      var w := words[|words| - 1];
      assert w in words;
      forall i | 0 <= i < |w| ensures !IsSpace(w[i]) { assert w[i] in w; }
    }
  }

  /** The only white space in a line is the blank between two words. */
  lemma LinesHaveOnlyBlanks(paragraph: string, width: nat, text: string)
    requires text in Wrap(paragraph, width)
    ensures OnlyBlanks(text)
  {
    var words, layout := Words(paragraph), Greedy(Words(paragraph), width);
    WordsAreWords(paragraph);
    GreedyIsLayout(words, width);
    var i :| 0 <= i < |layout| && text == Render(layout)[i];
    forall w | w in layout[i] ensures IsWord(w) { InFlatten(layout, layout[i], w); }
    JoinHasOnlyBlanks(layout[i]);
  }

  /** Of ASCII text no line has more than `width` characters, unless it is one word. */
  lemma AsciiLinesFit(paragraph: string, width: nat, text: string)
    requires Ascii(paragraph) && text in Wrap(paragraph, width)
    ensures |text| <= width || text in Words(paragraph)
  {
    var words, layout := Words(paragraph), Greedy(Words(paragraph), width);
    WordsAreCut(paragraph);
    GreedyIsLayout(words, width);
    var i :| 0 <= i < |layout| && text == Render(layout)[i];
    var line := layout[i];
    forall w | w in line ensures w in words && Ascii(w) {
      InFlatten(layout, line, w);
      forall k | 0 <= k < |w| ensures w[k] as int < 0x80 { assert w[k] in w && w[k] in paragraph; }
    }
    JoinIsAscii(line);
    LenIsCountIff(text);
    assert LineFits(line, width);
    if |line| == 1 { assert line[0] in line; }
  }

  /** Wrapping keeps the words, obeys the rule on the fewest lines any layout
      can, and leaves its own output alone. */
  lemma WrapIsBest(paragraph: string, width: nat)
    ensures Words(Lines(Wrap(paragraph, width))) == Words(paragraph)
    ensures Wrap(Lines(Wrap(paragraph, width)), width) == Wrap(paragraph, width)
    ensures exists layout | IsLayout(Words(paragraph), width, layout) :: Wrap(paragraph, width) == Render(layout)
    ensures forall layout | IsLayout(Words(paragraph), width, layout) :: |Wrap(paragraph, width)| <= |layout|
    ensures forall text | text in Wrap(paragraph, width) :: OnlyBlanks(text)
    ensures Ascii(paragraph) ==>
              forall text | text in Wrap(paragraph, width) :: |text| <= width || text in Words(paragraph)
  {
    forall text | text in Wrap(paragraph, width) ensures OnlyBlanks(text) {
      LinesHaveOnlyBlanks(paragraph, width, text);
    }
    forall text | Ascii(paragraph) && text in Wrap(paragraph, width)
      ensures |text| <= width || text in Words(paragraph)
    {
      AsciiLinesFit(paragraph, width, text);
    }
    var words := Words(paragraph);
    WordsAreWords(paragraph);
    GreedyIsLayout(words, width);
    LayoutWords(words, width, Greedy(words, width));
    WordsOfLines(Greedy(words, width));
    forall layout | IsLayout(words, width, layout) ensures |Wrap(paragraph, width)| <= |layout| {
      GreedyIsOptimal(words, width, layout);
    }
  }

  /** Two words of two characters each, which are four bytes each: five columns hold
      them on one line, and the code makes two. */
  lemma BytesAreNotColumns()
    ensures var w := "\U{E9}\U{E9}"; |w + " " + w| == 5 && Wrap(w + " " + w, 5) == [w, w]
  {
    var w := "\U{E9}\U{E9}";
    assert IsWord(w);
    WordsCons(w, "");
    WordAfterSpace(w, "");
    WordsCons(w, " " + w);
    assert w + "" == w && w + " " + w == w + (" " + w) && " " + (w + "") == " " + w;
    assert Words(w + " " + w) == [w, w];
    assert w[..1] == "\U{E9}" && w[..1][..0] == "";
    assert Len(w) == 4;
    assert FirstLine([w, w], 5, 1, 4) == 1;
    assert Join([w]) == w;
    assert [w, w][..1] == [w] && [w, w][1..] == [w];
    assert Greedy([w], 5) == [[w]] by { assert [w][..1] == [w] && [w][1..] == []; }
  }

  // ----- The loop, against what is still to come -----

  /** The greedy layout of the words from `start` on, once its first line holds those up to `i`. */
  function Continue(words: seq<string>, width: nat, start: nat, i: nat): Layout
    requires start < i <= |words|
  {
    var n := FirstLine(words, width, i, Len(Join(words[start..i])));
    [words[start..n]] + Greedy(words[n..], width)
  }

  lemma {:induction false} FirstLineShift(words: seq<string>, width: nat, s: nat, k: nat, used: nat)
    requires s + k <= |words|
    ensures s + FirstLine(words[s..], width, k, used) == FirstLine(words, width, s + k, used)
    decreases |words| - k
  {
    if s + k < |words| {
      assert words[s..][k] == words[s + k];
      FirstLineShift(words, width, s, k + 1, used + 1 + Len(words[s + k]));
    }
  }

  lemma Slices(words: seq<string>, s: nat, n: nat)
    requires s + n <= |words|
    ensures words[s..][..n] == words[s..s + n]
    ensures words[s..][n..] == words[s + n..]
  {
    assert words[s..][..n] == words[s..s + n];
    assert words[s..][n..] == words[s + n..];
  }

  lemma GreedyFrom(words: seq<string>, width: nat, s: nat)
    requires s < |words|
    ensures Greedy(words[s..], width) == Continue(words, width, s, s + 1)
  {
    FirstLineShift(words, width, s, 1, Len(words[s]));
    var n := FirstLine(words[s..], width, 1, Len(words[s]));
    assert words[s..s + 1] == [words[s]];
    Slices(words, s, n);
  }

  /** The text of words `start` up to `i` on one line. */
  function LineText(words: seq<string>, start: nat, i: nat): string {
    if start <= i <= |words| then Join(words[start..i]) else ""
  }

  /** The lines still to come when the line under way holds words `start` up to `i`. */
  function RestText(words: seq<string>, width: nat, start: nat, i: nat): seq<string>
    requires start < i <= |words|
    decreases |words| - i
  {
    if i == |words| then [LineText(words, start, i)]
    else if Len(LineText(words, start, i)) + 1 + Len(words[i]) > width
    then [LineText(words, start, i)] + RestText(words, width, i, i + 1)
    else RestText(words, width, start, i + 1)
  }

  lemma LineGrows(words: seq<string>, start: nat, i: nat)
    requires start <= i < |words|
    ensures LineText(words, start, i + 1) == if start == i then words[i] else LineText(words, start, i) + " " + words[i]
    ensures start < i ==> Len(LineText(words, start, i + 1)) == Len(LineText(words, start, i)) + 1 + Len(words[i])
  {
    assert words[start..i + 1] == words[start..i] + [words[i]];
    if start < i { JoinSnoc(words[start..i], words[i]); }
  }

  lemma RenderCons(line: seq<string>, below: Layout)
    ensures Render([line] + below) == [Join(line)] + Render(below)
  {
  }

  lemma ContinueFits(words: seq<string>, width: nat, start: nat, i: nat)
    requires start < i < |words| && Len(Join(words[start..i])) + 1 + Len(words[i]) <= width
    ensures Continue(words, width, start, i) == Continue(words, width, start, i + 1)
  {
    assert words[start..i + 1] == words[start..i] + [words[i]];
    JoinSnoc(words[start..i], words[i]);
  }

  lemma ContinueBreaks(words: seq<string>, width: nat, start: nat, i: nat)
    requires start < i < |words| && Len(Join(words[start..i])) + 1 + Len(words[i]) > width
    ensures Continue(words, width, start, i) == [words[start..i]] + Continue(words, width, i, i + 1)
  {
    GreedyFrom(words, width, i);
  }

  lemma TextEnds(words: seq<string>, width: nat, start: nat)
    requires start < |words|
    ensures Render(Continue(words, width, start, |words|)) == [LineText(words, start, |words|)]
  {
    assert words[|words|..] == [];
    assert Continue(words, width, start, |words|) == [words[start..|words|]] + [];
    RenderCons(words[start..|words|], []);
  }

  lemma TextBreaks(words: seq<string>, width: nat, start: nat, i: nat, below: seq<string>)
    requires start < i < |words| && Len(LineText(words, start, i)) + 1 + Len(words[i]) > width
    requires below == Render(Continue(words, width, i, i + 1))
    ensures Render(Continue(words, width, start, i)) == [LineText(words, start, i)] + below
  {
    ContinueBreaks(words, width, start, i);
    RenderCons(words[start..i], Continue(words, width, i, i + 1));
  }

  lemma TextFits(words: seq<string>, width: nat, start: nat, i: nat, rest: seq<string>)
    requires start < i < |words| && Len(LineText(words, start, i)) + 1 + Len(words[i]) <= width
    requires rest == Render(Continue(words, width, start, i + 1))
    ensures Render(Continue(words, width, start, i)) == rest
  {
    ContinueFits(words, width, start, i);
  }

  /** The text from here on is the greedy one. */
  ghost predicate IsGreedy(words: seq<string>, width: nat, start: nat, i: nat) {
    start < i <= |words| && Render(Continue(words, width, start, i)) == RestText(words, width, start, i)
  }

  lemma GreedyWhenEnded(words: seq<string>, width: nat, start: nat)
    requires start < |words|
    ensures IsGreedy(words, width, start, |words|)
  {
    TextEnds(words, width, start);
  }

  lemma GreedyWhenBroken(words: seq<string>, width: nat, start: nat, i: nat)
    requires start < i < |words| && Len(LineText(words, start, i)) + 1 + Len(words[i]) > width
    requires IsGreedy(words, width, i, i + 1)
    ensures IsGreedy(words, width, start, i)
  {
    TextBreaks(words, width, start, i, RestText(words, width, i, i + 1));
  }

  lemma GreedyWhenFit(words: seq<string>, width: nat, start: nat, i: nat)
    requires start < i < |words| && Len(LineText(words, start, i)) + 1 + Len(words[i]) <= width
    requires IsGreedy(words, width, start, i + 1)
    ensures IsGreedy(words, width, start, i)
  {
    TextFits(words, width, start, i, RestText(words, width, start, i + 1));
  }

  /** Word `i` is for the next line. */
  predicate Breaks(words: seq<string>, width: nat, start: nat, i: nat) {
    start < i < |words| && Len(LineText(words, start, i)) + 1 + Len(words[i]) > width
  }

  /** What holds at the end, and steps back over a break and over a word that fits, holds everywhere. */
  lemma {:induction false} StepBack(n: nat, holds: (nat, nat) -> bool, breaks: (nat, nat) -> bool, start: nat, i: nat)
    requires start < i <= n && forall s: nat | s < n :: holds(s, n)
    requires forall s: nat, k: nat {:trigger breaks(s, k)} | s < k < n ::
               (if breaks(s, k) then holds(k, k + 1) else holds(s, k + 1)) ==> holds(s, k)
    ensures holds(start, i)
    decreases n - i
  {
    if i < n {
      if breaks(start, i) { StepBack(n, holds, breaks, i, i + 1); } else { StepBack(n, holds, breaks, start, i + 1); }
    }
  }

  /** They are the greedy ones. */
  lemma RestIsGreedy(words: seq<string>, width: nat, start: nat, i: nat)
    requires start < i <= |words|
    ensures IsGreedy(words, width, start, i)
  {
    var holds := (s: nat, k: nat) => IsGreedy(words, width, s, k);
    var breaks := (s: nat, k: nat) => Breaks(words, width, s, k);
    forall s: nat | s < |words| ensures holds(s, |words|) { GreedyWhenEnded(words, width, s); }
    forall s: nat, k: nat | s < k < |words| && (if breaks(s, k) then holds(k, k + 1) else holds(s, k + 1))
      ensures holds(s, k)
    {
      if breaks(s, k) { GreedyWhenBroken(words, width, s, k); } else { GreedyWhenFit(words, width, s, k); }
    }
    StepBack(|words|, holds, breaks, start, i);
  }

  lemma RestAtStart(words: seq<string>, width: nat)
    requires words != []
    ensures Render(Greedy(words, width)) == RestText(words, width, 0, 1)
  {
    assert words[0..] == words;
    GreedyFrom(words, width, 0);
    RestIsGreedy(words, width, 0, 1);
  }

  /** `lines` are done, and `current` holds words `start` up to `i`. */
  ghost predicate UnderWay(words: seq<string>, width: nat, lines: seq<string>, current: string, start: nat, i: nat) {
    if i == 0 then lines == [] && current == "" && start == 0 && words != []
    else
      && start < i <= |words| && current == LineText(words, start, i) && current != ""
      && lines + RestText(words, width, start, i) == RestText(words, width, 0, 1)
  }

  lemma FirstWord(words: seq<string>, width: nat)
    requires words != [] && words[0] != ""
    ensures UnderWay(words, width, [], words[0], 0, 1)
  {
    LineGrows(words, 0, 0);
  }

  lemma NextWord(words: seq<string>, width: nat, lines: seq<string>, current: string, start: nat, i: nat)
    requires 0 < i < |words| && words[i] != "" && UnderWay(words, width, lines, current, start, i)
    ensures if Len(current) + 1 + Len(words[i]) > width
            then UnderWay(words, width, lines + [current], words[i], i, i + 1)
            else UnderWay(words, width, lines, current + " " + words[i], start, i + 1)
  {
    LineGrows(words, start, i);
    LineGrows(words, i, i);
    if Len(current) + 1 + Len(words[i]) > width {
      Regroup(lines, [current], RestText(words, width, i, i + 1));
    }
  }

  /** The loop of `wrap_words`. */
  method FillLines(words: seq<string>, width: nat) returns (lines: seq<string>)
    requires forall i | 0 <= i < |words| :: words[i] != ""
    ensures lines == if words == [] then [] else RestText(words, width, 0, 1)
  {
    var current := "";
    lines := [];
    ghost var start := 0;
    for i := 0 to |words|
      invariant words != [] ==> UnderWay(words, width, lines, current, start, i)
      invariant words == [] ==> lines == [] && current == ""
    {
      var word := words[i];
      if i == 0 { FirstWord(words, width); } else { NextWord(words, width, lines, current, start, i); }
      assert "" + word == word;
      if current != "" && Len(current) + 1 + Len(word) > width {
        lines := lines + [current];
        current := "";
        start := i;
      }
      if current != "" {
        current := current + " ";
      }
      current := current + word;
    }
    if current != "" {
      lines := lines + [current];
    }
  }

  /** `wrap_words`. */
  method WrapWords(paragraph: string, width: nat) returns (lines: seq<string>)
    ensures lines == Wrap(paragraph, width)
  {
    var words := Words(paragraph);
    WordsAreWords(paragraph);
    assert forall i | 0 <= i < |words| :: words[i] in words;
    if words != [] { RestAtStart(words, width); }
    lines := FillLines(words, width);
  }
}
