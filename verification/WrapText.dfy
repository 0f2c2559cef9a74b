/** Wrapping the list of member processes: a greedy line breaker. */
module WrapText {
  import opened Splitting

  predicate IsSpace(c: char) {
    || c in {' ', '\t', '\n', '\r', '\U{0B}', '\U{0C}', '\U{85}', '\U{A0}', '\U{1680}',
             '\U{2028}', '\U{2029}', '\U{202F}', '\U{205F}', '\U{3000}'}
    || '\U{2000}' <= c <= '\U{200A}'
  }

  predicate IsNewline(c: char) { c == '\n' }

  function NonEmpty(pieces: seq<string>): seq<string> {
    if pieces == [] then []
    else (if pieces[0] == "" then [] else [pieces[0]]) + NonEmpty(pieces[1..])
  }

  /** The maximal runs of characters that are not white space. */
  function Fields(text: string): seq<string> {
    NonEmpty(Split(text, IsSpace))
  }

  // ------------------------------------------------------------- the lines

  /** A line's words, one space between them. */
  function Spaced(words: seq<string>): string
    requires |words| > 0
  {
    Join(words, ' ')
  }

  ghost predicate Lines(lines: seq<seq<string>>) {
    forall l | l in lines :: |l| > 0
  }

  /** The words of the lines, in order. */
  function Flat(lines: seq<seq<string>>): seq<string> {
    if lines == [] then [] else Flat(lines[..|lines| - 1]) + lines[|lines| - 1]
  }

  /** A breaking of the words, in order, into lines of at least one word. */
  ghost predicate Breaks(lines: seq<seq<string>>, words: seq<string>) {
    Lines(lines) && Flat(lines) == words
  }

  ghost predicate Fits(lines: seq<seq<string>>, width: int) {
    forall l | l in lines :: |l| > 0 ==> |Spaced(l)| <= width
  }

  /** Each word goes on the last line if it fits there, else on a new one. */
  function Greedy(words: seq<string>, width: int): (lines: seq<seq<string>>)
    ensures lines == [] <==> words == []
    ensures forall l | l in lines :: |l| > 0
  {
    if words == [] then []
    else
      var lines, word := Greedy(words[..|words| - 1], width), words[|words| - 1];
      if lines == [] then [[word]]
      else
        var last := lines[|lines| - 1];
        if |Spaced(last)| + |word| + 1 > width then lines + [[word]]
        else lines[..|lines| - 1] + [last + [word]]
  }

  /** The rows that are output. */
  function Rows(lines: seq<seq<string>>, indent: string): seq<string>
    requires Lines(lines)
  {
    seq(|lines|, i requires 0 <= i < |lines| => indent + Spaced(lines[i]))
  }

  lemma LonerLine(line: seq<string>, word: string)
    requires |line| > 0
    ensures Spaced(line + [word]) == Spaced(line) + " " + word
  {
    assert (line + [word])[..|line|] == line;
  }

  lemma RowsSnoc(lines: seq<seq<string>>, line: seq<string>, indent: string)
    requires Lines(lines) && |line| > 0
    ensures Lines(lines + [line])
    ensures Rows(lines + [line], indent) == Rows(lines, indent) + [indent + Spaced(line)]
  {
  }

  /** What is printed for the lines: the rows, with newlines between. */
  ghost function Rendered(lines: seq<seq<string>>, indent: string): string
    requires Lines(lines) && lines != []
  {
    Join(Rows(lines, indent), '\n')
  }

  lemma OneWord(word: string, indent: string)
    ensures Spaced([word]) == word && Rendered([[word]], indent) == indent + word
  {
    assert Rows([[word]], indent) == [indent + word];
  }

  lemma RenderedLine(lines: seq<seq<string>>, line: seq<string>, indent: string)
    requires lines != [] && Lines(lines) && |line| > 0
    ensures Lines(lines + [line])
    ensures Rendered(lines + [line], indent) == Rendered(lines, indent) + "\n" + indent + Spaced(line)
  {
    RowsSnoc(lines, line, indent);
    JoinSnoc(Rows(lines, indent), indent + Spaced(line), '\n');
    hide *;
    assert "\n" + (indent + Spaced(line)) == "\n" + indent + Spaced(line);
  }

  lemma RenderedWord(lines: seq<seq<string>>, last: seq<string>, word: string, indent: string)
    requires Lines(lines) && |last| > 0
    ensures Lines(lines + [last]) && Lines(lines + [last + [word]])
    ensures Rendered(lines + [last + [word]], indent) == Rendered(lines + [last], indent) + " " + word
  {
    LonerLine(last, word);
    if lines == [] {
      assert Rows(lines + [last], indent) == [indent + Spaced(last)];
      assert Rows(lines + [last + [word]], indent) == [indent + Spaced(last + [word])];
    } else {
      RenderedLine(lines, last, indent);
      RenderedLine(lines, last + [word], indent);
    }
  }

  lemma {:induction false} JoinSnoc(pieces: seq<string>, p: string, c: char)
    requires |pieces| > 0
    ensures Join(pieces + [p], c) == Join(pieces, c) + [c] + p
  {
    assert (pieces + [p])[..|pieces|] == pieces;
  }

  /** What the loop has put out after i words, and the length of the last line. */
  ghost predicate PutOut(words: seq<string>, i: nat, width: int, indent: string, result: string, col: int) {
    && 0 < i <= |words|
    && var lines := Greedy(words[..i], width);
       result == Rendered(lines, indent) && col == |Spaced(lines[|lines| - 1])|
  }

  lemma FirstWord(words: seq<string>, width: int, indent: string)
    requires words != []
    ensures PutOut(words, 1, width, indent, indent + words[0], |words[0]|)
  {
    assert words[..1] == [words[0]] && words[..1][..0] == [];
    OneWord(words[0], indent);
  }

  lemma NextWord(words: seq<string>, i: nat, width: int, indent: string, result: string, col: int)
    requires PutOut(words, i, width, indent, result, col) && i < |words|
    ensures if col + |words[i]| + 1 > width then
              PutOut(words, i + 1, width, indent, result + "\n" + indent + words[i], |words[i]|)
            else PutOut(words, i + 1, width, indent, result + " " + words[i], col + 1 + |words[i]|)
  {
    var word, lines := words[i], Greedy(words[..i], width);
    var init, last := lines[..|lines| - 1], lines[|lines| - 1];
    assert words[..i + 1][..i] == words[..i] && lines == init + [last];
    hide Rendered, Spaced;
    OneWord(word, indent);
    LonerLine(last, word);
    RenderedLine(lines, [word], indent);
    RenderedWord(init, last, word, indent);
  }

  method WrapText(text: string, width: int, indent: string) returns (result: string)
    ensures Fields(text) == [] ==> result == ""
    ensures Fields(text) != [] ==> result == Rendered(Greedy(Fields(text), width), indent)
  {
    hide Rendered, Spaced, Fields, PutOut, Greedy;
    var words := Fields(text);
    if |words| == 0 {
      return "";
    }
    result := indent + words[0];
    var col := |words[0]|;
    FirstWord(words, width, indent);
    for i := 1 to |words|
      invariant PutOut(words, i, width, indent, result, col)
    {
      var word := words[i];
      NextWord(words, i, width, indent, result, col);
      if col + |word| + 1 > width {
        result := result + "\n" + indent + word;
        col := |word|;
      } else {
        result := result + " " + word;
        col := col + 1 + |word|;
      }
    }
    AllWords(words, width, indent, result, col);
  }

  lemma {:induction false} AllWords(words: seq<string>, width: int, indent: string, result: string, col: int)
    requires PutOut(words, |words|, width, indent, result, col)
    ensures result == Rendered(Greedy(words, width), indent)
  {
    assert words[..|words|] == words;
  }

  // ------------------------------------------------- what the greedy lines are

  lemma {:induction false} FlatSnoc(lines: seq<seq<string>>, line: seq<string>)
    ensures Flat(lines + [line]) == Flat(lines) + line
  {
    assert (lines + [line])[..|lines|] == lines;
  }

  lemma {:induction false} FlatWord(front: seq<seq<string>>, last: seq<string>, word: string)
    ensures Flat(front + [last + [word]]) == Flat(front + [last]) + [word]
  {
    FlatSnoc(front, last);
    FlatSnoc(front, last + [word]);
    hide Flat;
    assert Flat(front) + (last + [word]) == Flat(front) + last + [word];
  }

  /** No word is lost, added or moved. */
  lemma {:induction false} GreedyKeepsWords(words: seq<string>, width: int)
    ensures Breaks(Greedy(words, width), words)
  {
    hide Spaced;
    if words != [] {
      var init, word := words[..|words| - 1], words[|words| - 1];
      GreedyKeepsWords(init, width);
      if init != [] {
        var lines := Greedy(init, width);
        var front, last := lines[..|lines| - 1], lines[|lines| - 1];
        assert lines == front + [last] && words == init + [word];
        FlatSnoc(lines, [word]);
        FlatWord(front, last, word);
        hide Flat;
      }
    }
  }

  lemma {:induction false} WordInLine(line: seq<string>, w: string)
    requires w in line
    ensures |w| <= |Spaced(line)|
  {
    if |line| > 1 && w in line[..|line| - 1] {
      WordInLine(line[..|line| - 1], w);
    }
  }

  lemma FitsSnoc(lines: seq<seq<string>>, line: seq<string>, width: int)
    requires |line| > 0
    ensures Fits(lines + [line], width) <==> Fits(lines, width) && |Spaced(line)| <= width
  {
    hide Spaced;
    assert forall l :: l in lines + [line] <==> l in lines || l == line;
  }

  /** All lines fit exactly if every word would fit on a line of its own. */
  lemma {:induction false} GreedyFits(words: seq<string>, width: int)
    ensures Fits(Greedy(words, width), width) <==> forall w | w in words :: |w| <= width
  {
    if words != [] {
      var init, word := words[..|words| - 1], words[|words| - 1];
      var lines := Greedy(init, width);
      GreedyFits(init, width);
      OneWord(word, "");
      assert words == init + [word];
      if lines == [] {
        FitsSnoc([], [word], width);
        assert [] + [[word]] == [[word]];
      } else {
        var front, last := lines[..|lines| - 1], lines[|lines| - 1];
        assert lines == front + [last];
        LonerLine(last, word);
        hide Spaced, Fits;
        FitsSnoc(lines, [word], width);
        FitsSnoc(front, last, width);
        FitsSnoc(front, last + [word], width);
      }
    }
  }

  /** The greedy lines are no more than those of any breaking that fits and, if
      they are as many, the last one is no longer than there. */
  lemma {:induction false} GreedyStaysAhead(words: seq<string>, width: int, other: seq<seq<string>>)
    requires Breaks(other, words) && Fits(other, width) && words != []
    ensures other != []
    ensures var lines := Greedy(words, width);
            || |lines| < |other|
            || (|lines| == |other| && |Spaced(lines[|lines| - 1])| <= |Spaced(other[|other| - 1])|)
  {
    OneWord(words[|words| - 1], "");
    hide Spaced;
    var init, word := words[..|words| - 1], words[|words| - 1];
    var before, last := other[..|other| - 1], other[|other| - 1];
    assert last in other && forall l | l in before :: l in other;
    var short := last[..|last| - 1];
    assert last == short + [word] && Flat(before) + short == init;
    if short == [] {
      if init != [] {
        GreedyStaysAhead(init, width, before);
      }
    } else {
      LonerLine(short, word);
      FlatSnoc(before, short);
      GreedyStaysAhead(init, width, before + [short]);
    }
    WordInLine(last, word);
    var lines := Greedy(init, width);
    if lines != [] {
      LonerLine(lines[|lines| - 1], word);
    }
  }

  /** No breaking of the words, in order, into lines that fit has fewer lines. */
  lemma {:induction false} GreedyFewest(words: seq<string>, width: int, other: seq<seq<string>>)
    requires Breaks(other, words) && Fits(other, width)
    ensures |Greedy(words, width)| <= |other|
  {
    if words != [] {
      GreedyStaysAhead(words, width, other);
    }
  }

  // ------------------------------------------------ what the output reads as

  ghost predicate IsWord(w: string) {
    w != "" && Free(w, IsSpace)
  }

  lemma {:induction false} NonEmptyConcat(a: seq<string>, b: seq<string>)
    ensures NonEmpty(a + b) == NonEmpty(a) + NonEmpty(b)
  {
    if a == [] {
      assert a + b == b;
    } else {
      assert (a + b)[1..] == a[1..] + b;
      NonEmptyConcat(a[1..], b);
    }
  }

  lemma {:induction false} NonEmptyOf(pieces: seq<string>)
    ensures forall w | w in NonEmpty(pieces) :: w in pieces && w != ""
  {
    if pieces != [] {
      NonEmptyOf(pieces[1..]);
    }
  }

  lemma FieldsAreWords(text: string)
    ensures forall w | w in Fields(text) :: IsWord(w)
  {
    SplitFreeOfSeparators(text, IsSpace);
    NonEmptyOf(Split(text, IsSpace));
  }

  lemma FieldsConcat(a: string, c: char, b: string)
    requires IsSpace(c)
    ensures Fields(a + [c] + b) == Fields(a) + Fields(b)
  {
    SplitConcat(a, c, b, IsSpace);
    NonEmptyConcat(Split(a, IsSpace), Split(b, IsSpace));
  }

  lemma FieldsOfWord(w: string)
    requires IsWord(w)
    ensures Fields(w) == [w]
  {
    SplitFree(w, IsSpace);
    assert NonEmpty([w]) == [w] + NonEmpty([]);
  }

  ghost predicate Blank(indent: string) {
    forall c | c in indent :: c == ' '
  }

  lemma {:induction false} FieldsOfIndented(indent: string, text: string)
    requires Blank(indent)
    ensures Fields(indent + text) == Fields(text)
  {
    if indent == "" {
      assert indent + text == text;
    } else {
      assert indent[0] in indent && indent + text == "" + [indent[0]] + (indent[1..] + text);
      FieldsConcat("", indent[0], indent[1..] + text);
      assert Fields("") == [] && forall c | c in indent[1..] :: c in indent;
      FieldsOfIndented(indent[1..], text);
    }
  }

  lemma {:induction false} FieldsOfSpaced(words: seq<string>)
    requires |words| > 0 && forall w | w in words :: IsWord(w)
    ensures Fields(Spaced(words)) == words && Free(Spaced(words), IsNewline)
  {
    var init, last := words[..|words| - 1], words[|words| - 1];
    FieldsOfWord(last);
    if |words| > 1 {
      assert forall w | w in init :: w in words;
      FieldsOfSpaced(init);
      FieldsConcat(Spaced(init), ' ', last);
    }
  }

  lemma {:induction false} FieldsOfRendered(lines: seq<seq<string>>, indent: string)
    requires lines != [] && Lines(lines) && Blank(indent) && forall w | w in Flat(lines) :: IsWord(w)
    ensures Fields(Rendered(lines, indent)) == Flat(lines)
    ensures Split(Rendered(lines, indent), IsNewline) == Rows(lines, indent)
  {
    hide Spaced, Fields, Split, IsWord;
    var init, last := lines[..|lines| - 1], lines[|lines| - 1];
    assert last in lines && lines == init + [last];
    assert forall w | w in Flat(init) :: w in Flat(lines);
    RowOfWords(last, indent);
    if init == [] {
      assert Rows(lines, indent) == [indent + Spaced(last)];
    } else {
      RowsSnoc(init, last, indent);
      FieldsOfRendered(init, indent);
      RenderedLine(init, last, indent);
      hide Rendered, Rows;
      OneRowMore(Rendered(init, indent), indent + Spaced(last));
      assert Rendered(lines, indent) == Rendered(init, indent) + "\n" + (indent + Spaced(last));
    }
  }

  lemma {:induction false} RowOfWords(line: seq<string>, indent: string)
    requires |line| > 0 && Blank(indent) && forall w | w in line :: IsWord(w)
    ensures Fields(indent + Spaced(line)) == line
    ensures Split(indent + Spaced(line), IsNewline) == [indent + Spaced(line)]
  {
    FieldsOfSpaced(line);
    FieldsOfIndented(indent, Spaced(line));
    SplitFree(indent + Spaced(line), IsNewline);
  }

  lemma {:induction false} OneRowMore(shown: string, row: string)
    ensures Fields(shown + "\n" + row) == Fields(shown) + Fields(row)
    ensures Split(shown + "\n" + row, IsNewline) == Split(shown, IsNewline) + Split(row, IsNewline)
  {
    hide Fields, Split;
    FieldsConcat(shown, '\n', row);
    SplitConcat(shown, '\n', row, IsNewline);
    assert "\n" == ['\n'];
  }

  /** Wrapped text reads as the same words; its rows are the greedy lines, and
      each is within the width, not counting the indent, exactly if every word is. */
  lemma {:induction false} WrappedReadsTheSame(text: string, width: int, indent: string)
    requires Fields(text) != [] && Blank(indent)
    ensures var wrapped := Rendered(Greedy(Fields(text), width), indent);
            && Fields(wrapped) == Fields(text)
            && Split(wrapped, IsNewline) == Rows(Greedy(Fields(text), width), indent)
            && ((forall row | row in Split(wrapped, IsNewline) :: |row| <= |indent| + width)
                <==> forall w | w in Fields(text) :: |w| <= width)
            && (forall row | row in Split(wrapped, IsNewline) :: StartsAt(row, indent))
            && (forall other | Breaks(other, Fields(text)) && Fits(other, width) ::
                  |Split(wrapped, IsNewline)| <= |other|)
  {
    var words := Fields(text);
    var lines := Greedy(words, width);
    FieldsAreWords(text);
    GreedyKeepsWords(words, width);
    FieldsOfRendered(lines, indent);
    GreedyFits(words, width);
    RowsWithin(lines, width, indent);
    RowsStart(lines, indent);
    forall other | Breaks(other, words) && Fits(other, width) ensures |lines| <= |other| {
      GreedyFewest(words, width, other);
    }
  }

  /** The indent and then a word. */
  ghost predicate StartsAt(row: string, indent: string) {
    indent < row && !IsSpace(row[|indent|])
  }

  lemma {:induction false} RowsStart(lines: seq<seq<string>>, indent: string)
    requires Lines(lines) && forall w | w in Flat(lines) :: IsWord(w)
    ensures forall row | row in Rows(lines, indent) :: StartsAt(row, indent)
  {
    hide Spaced, StartsAt;
    forall i | 0 <= i < |lines| ensures StartsAt(indent + Spaced(lines[i]), indent) {
      LineOfWords(lines, i);
      LineStarts(lines[i], indent);
    }
  }

  lemma {:induction false} LineOfWords(lines: seq<seq<string>>, i: nat)
    requires i < |lines|
    ensures forall w | w in lines[i] :: w in Flat(lines)
  {
    if i < |lines| - 1 {
      LineOfWords(lines[..|lines| - 1], i);
    }
  }

  lemma {:induction false} LineStarts(line: seq<string>, indent: string)
    requires |line| > 0 && forall w | w in line :: IsWord(w)
    ensures StartsAt(indent + Spaced(line), indent)
  {
    SpacedHead(line);
    var row := indent + Spaced(line);
    assert line[0] in line && row[|indent|] == Spaced(line)[0] == line[0][0];
    assert row[..|indent|] == indent;
  }

  lemma {:induction false} SpacedHead(line: seq<string>)
    requires |line| > 0
    ensures line[0] <= Spaced(line)
  {
    if |line| > 1 {
      SpacedHead(line[..|line| - 1]);
    }
  }

  lemma RowsWithin(lines: seq<seq<string>>, width: int, indent: string)
    requires Lines(lines)
    ensures (forall row | row in Rows(lines, indent) :: |row| <= |indent| + width) <==> Fits(lines, width)
  {
    var rows := Rows(lines, indent);
    if forall row | row in rows :: |row| <= |indent| + width {
      forall l | l in lines ensures |Spaced(l)| <= width {
        var i :| 0 <= i < |lines| && lines[i] == l;
        assert rows[i] in rows;
      }
    }
    if Fits(lines, width) {
      forall row | row in rows ensures |row| <= |indent| + width {
        var i :| 0 <= i < |rows| && rows[i] == row;
        assert lines[i] in lines;
      }
    }
  }

  // -------------------------------------------------- the list of processes

  const MIN_DISPLAY_WIDTH := 32

  function Itoa(n: nat): string {
    if n < 10 then [Digit(n)] else Itoa(n / 10) + [Digit(n % 10)]
  }

  function Digit(d: nat): char
    requires d < 10
  {
    "0123456789"[d]
  }

  /** The number a text of digits says. */
  function Atoi(s: string): nat
    requires IsDecimal(s)
  {
    if s == "" then 0 else 10 * Atoi(s[..|s| - 1]) + (s[|s| - 1] as int - '0' as int)
  }

  predicate IsDecimal(s: string) {
    forall i | 0 <= i < |s| :: '0' <= s[i] <= '9'
  }

  lemma DigitSays(d: nat)
    requires d < 10
    ensures '0' <= Digit(d) <= '9' && Digit(d) as int - '0' as int == d
  {
  }

  /** What is written reads back as the number, and without a leading zero. */
  lemma {:induction false} ItoaReadsBack(n: nat)
    ensures IsDecimal(Itoa(n)) && Atoi(Itoa(n)) == n
    ensures Itoa(n) != "" && (n > 0 ==> Itoa(n)[0] != '0')
  {
    DigitSays(n % 10);
    if n >= 10 {
      ItoaReadsBack(n / 10);
      assert Itoa(n)[..|Itoa(n)| - 1] == Itoa(n / 10);
    } else {
      assert Itoa(n)[..0] == "";
    }
  }

  function Pow10(k: nat): nat {
    if k == 0 then 1 else 10 * Pow10(k - 1)
  }

  lemma {:induction false} ItoaIsAWord(n: nat, k: nat)
    requires 0 < k && n < Pow10(k)
    ensures IsWord(Itoa(n)) && |Itoa(n)| <= k
  {
    if n >= 10 {
      ItoaIsAWord(n / 10, k - 1);
    }
  }

  lemma TenToThe19()
    ensures Pow10(19) == 10000000000000000000
  {
    assert Pow10(5) == 100000;
    assert Pow10(10) == 10000000000;
    assert Pow10(15) == 1000000000000000;
  }

  /** A PID is a positive value of Go's int type. */
  ghost predicate IsPid(pid: int) {
    0 < pid < 0x8000_0000_0000_0000
  }

  function PidWords(pids: seq<nat>): seq<string> {
    if pids == [] then ["["] else PidWords(pids[..|pids| - 1]) + [Itoa(pids[|pids| - 1])]
  }

  lemma {:induction false} PidWordsFit(pids: seq<nat>)
    requires forall pid | pid in pids :: IsPid(pid)
    ensures forall w | w in PidWords(pids) :: IsWord(w) && |w| <= MIN_DISPLAY_WIDTH
  {
    if pids != [] {
      assert pids[|pids| - 1] in pids && forall pid | pid in pids[..|pids| - 1] :: pid in pids;
      PidWordsFit(pids[..|pids| - 1]);
      TenToThe19();
      ItoaIsAWord(pids[|pids| - 1], 19);
    }
  }

  /** A bracket, and a word that reads as the number for each process, in order. */
  ghost predicate ReadsAs(words: seq<string>, pids: seq<nat>) {
    && |words| == |pids| + 2 && words[0] == "[" && words[|pids| + 1] == "]"
    && forall j | 0 < j <= |pids| :: IsDecimal(words[j]) && Atoi(words[j]) == pids[j - 1]
  }

  lemma {:induction false} PidWordsAt(pids: seq<nat>)
    ensures |PidWords(pids)| == |pids| + 1 && PidWords(pids)[0] == "["
    ensures forall j | 0 < j <= |pids| :: PidWords(pids)[j] == Itoa(pids[j - 1])
  {
    if pids != [] {
      PidWordsAt(pids[..|pids| - 1]);
    }
  }

  lemma {:induction false} PidWordsReadBack(pids: seq<nat>)
    ensures ReadsAs(PidWords(pids) + ["]"], pids)
  {
    PidWordsAt(pids);
    var words := PidWords(pids) + ["]"];
    assert words[0] == "[" && words[|pids| + 1] == "]";
    hide PidWords, Itoa;
    forall j | 0 < j <= |pids| ensures IsDecimal(words[j]) && Atoi(words[j]) == pids[j - 1] {
      ItoaReadsBack(pids[j - 1]);
    }
  }

  method BracketedPIDs(pids: seq<nat>) returns (res: string)
    requires pids != []
    ensures res == Spaced(PidWords(pids) + ["]"])
  {
    res := "[ " + Itoa(pids[0]);
    LonerLine(["["], Itoa(pids[0]));
    assert pids[..1] == [pids[0]] && PidWords(pids[..1]) == ["["] + [Itoa(pids[0])];
    assert Spaced(["["]) == "[";
    hide Spaced, Itoa;
    for i := 1 to |pids|
      invariant res == Spaced(PidWords(pids[..i]))
    {
      assert pids[..i + 1][..i] == pids[..i];
      LonerLine(PidWords(pids[..i]), Itoa(pids[i]));
      res := res + " " + Itoa(pids[i]);
    }
    assert pids[..|pids|] == pids;
    LonerLine(PidWords(pids), "]");
    res := res + " ]";
  }

  /** The processes in brackets, wrapped. It reads as the same list. Every row is
      indented by eight more, none is wider than the terminal, unless so deeply
      indented that the least width beside the indent is used, and no breaking
      within that width has fewer rows. */
  method DisplayPIDsAsList(indent: string, pids: seq<nat>, terminalWidth: nat) returns (res: string)
    requires pids != [] && Blank(indent) && forall pid | pid in pids :: IsPid(pid)
    ensures ReadsAs(Fields(res), pids)
    ensures var rows, margin := Split(res, IsNewline), |indent| + 8;
            var widest := if terminalWidth < margin + 32 then margin + 32 else terminalWidth;
            && (forall row | row in rows :: |row| <= widest && StartsAt(row, indent + "        "))
            && (forall other | Breaks(other, Fields(res)) && Fits(other, widest - margin) :: |rows| <= |other|)
  {
    hide Spaced, Fields, Split, Greedy, Rendered, PidWords, StartsAt, Breaks, Fits, ReadsAs;
    var totalIndent := indent + "        ";
    var outputWidth := terminalWidth - |totalIndent|;
    if outputWidth < MIN_DISPLAY_WIDTH {
      outputWidth := MIN_DISPLAY_WIDTH;
    }
    ghost var words := PidWords(pids) + ["]"];
    PidWordsFit(pids);
    PidWordsReadBack(pids);
    var list := BracketedPIDs(pids);
    FieldsOfSpaced(words);
    res := WrapText(list, outputWidth, totalIndent);
    WrappedReadsTheSame(list, outputWidth, totalIndent);
  }
}
