/** The buffers of fmt as they change: flush_paragraph and get_line. */
module FmtBuffer {
  import opened FmtSpec
  import opened FmtOutput
  import opened FmtLayout
  import opened FmtParagraph
  import FmtChoice

  lemma {:induction false} FilledBounded(ws: seq<Word>, end: nat, m: Margins)
    requires Filled(ws, end) && end <= MAXCHARS && |ws| <= MAXWORDS
    requires m.maxWidth <= MAXCHARS && m.goalWidth <= MAXCHARS
    requires m.firstIndent <= MAXCOLUMN && m.otherIndent <= MAXCOLUMN && m.lastLineLength <= 2 * MAXCOLUMN
    ensures Bounded(ws, m)
  {
    forall k | 0 <= k < |ws|
      ensures ws[k].length <= MAXCHARS
    {
      FilledUpTo(ws, end, k);
    }
  }

  lemma {:induction false} WordsBefore(buf: seq<char>, ws: seq<Word>, end: nat, j: nat)
    requires Filled(ws, end) && 0 < j <= |ws| && end <= |buf|
    ensures (if j < |ws| then ws[j].text else end) <= end
    ensures Words(buf, ws, 0, j) == buf[..if j < |ws| then ws[j].text else end]
  {
    FilledUpTo(ws, end, j - 1);
    assert Follows(ws, end, j - 1);
    assert Follows(ws, end, 0);
  }

  lemma SentThenKept(sent: string, buf: seq<char>, shift: nat, full: nat)
    requires shift <= full <= |buf|
    ensures sent + buf[..shift] + buf[shift..full] == sent + buf[..full]
  {
  }

  class Paragraph {
    const word: array<Word>
    const choice: array<Choice>
    const parabuf: array<char>
    const output: Output
    const crown: bool
    const tagged: bool
    const split: bool
    const uniform: bool
    const maxWidth: nat
    const goalWidth: nat

    // The first free place in parabuf, and in word.
    var wptr: nat
    var wordLimit: nat
    var firstIndent: nat
    var otherIndent: nat
    var inColumn: nat
    var input: string

    /** An empty paragraph. */
    constructor (output: Output, crown: bool, tagged: bool, split: bool, uniform: bool, maxWidth: nat, goalWidth: nat,
                 input: string)
      requires maxWidth <= MAXCHARS / 2 && goalWidth <= MAXCHARS / 2
      requires output.Margin() <= MAXCOLUMN
      requires output.lastLineLength == 0
      ensures AtWord() && wordLimit == 0 && this.output == output && this.input == input
      ensures fresh(word) && fresh(choice) && fresh(parabuf)
      ensures this.crown == crown && this.tagged == tagged && this.split == split && this.uniform == uniform
      ensures this.maxWidth == maxWidth && this.goalWidth == goalWidth
    {
      word := new Word[MAXWORDS](_ => Word(0, 0, 0, false, false, false, false));
      choice := new Choice[MAXWORDS](_ => Choice(0, 0, 0));
      parabuf := new char[MAXCHARS];
      this.output := output;
      this.crown, this.tagged, this.split, this.uniform := crown, tagged, split, uniform;
      this.maxWidth, this.goalWidth := maxWidth, goalWidth;
      wptr, wordLimit, firstIndent, otherIndent, inColumn := 0, 0, 0, 0, 0;
      this.input := input;
    }

    /** The sizes of the buffers, and the bounds on columns. */
    ghost predicate Ok()
      reads this`wptr, this`wordLimit, this`firstIndent, this`otherIndent
      reads output`prefix, output`prefixIndent, output`lastLineLength
    {
      && word.Length == MAXWORDS && choice.Length == MAXWORDS && parabuf.Length == MAXCHARS
      && wptr <= MAXCHARS && wordLimit <= MAXWORDS - 2
      && maxWidth <= MAXCHARS && goalWidth <= MAXCHARS
      && firstIndent <= MAXCOLUMN && otherIndent <= MAXCOLUMN
      && output.Margin() <= MAXCOLUMN
      && output.lastLineLength <= 2 * MAXCOLUMN
    }

    /** Between words: the complete words fill the buffer. */
    ghost predicate AtWord()
      reads this`wptr, this`wordLimit, this`firstIndent, this`otherIndent
      reads output`prefix, output`prefixIndent, output`lastLineLength, word, parabuf
    {
      Ok() && Filled(word[..wordLimit], wptr) && NoBlank(parabuf[..wptr])
    }

    /** At word_limit there is a word that may be incomplete, with its text last in the buffer. */
    ghost predicate InWord()
      reads this`wptr, this`wordLimit, this`firstIndent, this`otherIndent
      reads output`prefix, output`prefixIndent, output`lastLineLength, word, parabuf
    {
      && Ok() && word[wordLimit].text <= wptr
      && Filled(word[..wordLimit], word[wordLimit].text) && NoBlank(parabuf[..wptr])
    }

    /** Everything read so far and not yet counted as blank: sent, or in the buffer. */
    ghost function Kept(): string
      reads this`wptr, output`sent, parabuf
      requires wptr <= parabuf.Length
    {
      output.sent + parabuf[..wptr]
    }

    function Margins(): Margins
      reads this`firstIndent, this`otherIndent, output`lastLineLength
    {
      FmtSpec.Margins(maxWidth, goalWidth, firstIndent, otherIndent, output.lastLineLength)
    }

    // The second half of flush_paragraph: the text from shift on moves to the start of parabuf,
    method MoveText(shift: nat)
      requires shift <= wptr <= parabuf.Length
      modifies this`wptr, parabuf
      ensures wptr == old(wptr) - shift && parabuf[..wptr] == old(parabuf[shift..wptr])
    {
      forall k | 0 <= k < wptr - shift {
        parabuf[k] := parabuf[shift + k];
      }
      wptr := wptr - shift;
    }

    // and the words from the split point on move to the start of word.
    method MoveWords(splitPoint: nat, shift: nat)
      requires splitPoint <= wordLimit < word.Length
      requires forall k :: splitPoint <= k <= wordLimit ==> shift <= word[k].text
      modifies this`wordLimit, word
      ensures wordLimit == old(wordLimit) - splitPoint
      ensures forall k :: 0 <= k <= wordLimit ==> MovedAt(old(word[splitPoint + k]), word[k], shift)
    {
      var w := splitPoint;
      while w <= wordLimit
        invariant splitPoint <= w <= wordLimit + 1
        invariant forall k :: splitPoint <= k < w ==> word[k] == Moved(old(word[k]), shift)
        invariant forall k :: w <= k <= wordLimit ==> word[k] == old(word[k])
        modifies word
      {
        word[w] := word[w].(text := word[w].text - shift);
        w := w + 1;
      }
      forall k | 0 <= k <= wordLimit - splitPoint {
        word[k] := word[splitPoint + k];
      }
      wordLimit := wordLimit - splitPoint;
    }

    // Both.
    method MoveDown(splitPoint: nat, ghost ws: seq<Word>, ghost end: nat) returns (ghost shift: nat)
      requires Ok() && 0 < splitPoint <= wordLimit
      requires ws == word[..wordLimit] && end == word[wordLimit].text <= wptr && Filled(ws, end) && NoBlank(parabuf[..wptr])
      modifies this`wptr, this`wordLimit, word, parabuf
      ensures InWord()
      ensures shift == old(word[splitPoint].text) && 0 < shift <= old(wptr) && wptr == old(wptr) - shift
      ensures parabuf[..wptr] == old(parabuf[..])[shift..old(wptr)]
      ensures wordLimit == old(wordLimit) - splitPoint
      ensures forall k :: 0 <= k <= wordLimit ==> MovedAt(old(word[splitPoint + k]), word[k], shift)
    {
      hide NoBlank, Filled, MovedAt;
      FilledRising(ws, end, splitPoint);
      shift := word[splitPoint].text;
      ghost var buf, full := parabuf[..], wptr;
      assert buf[..full] == parabuf[..wptr];
      MoveText(word[splitPoint].text);
      MoveWords(splitPoint, word[splitPoint].text);
      FlushKeeps(ws, end, word[..wordLimit], splitPoint, shift, buf, full, parabuf[..wptr]);
      ghost var k := wordLimit;
      MovedText(old(word[splitPoint + k]), word[k], shift);
    }

    // The special case: it is all one word.
    method FlushWord()
      requires InWord() && wordLimit == 0
      modifies this`wptr, output`out, output`sent
      ensures InWord() && Kept() == old(Kept()) && (old(output.Faithful()) ==> output.Faithful())
      ensures wptr == 0 && output.out == old(output.out) + old(parabuf[..wptr])
    {
      hide Solid;
      ghost var text := parabuf[..wptr];
      SolidText(text);
      SolidConcat(output.out, text);
      output.out := output.out + parabuf[..wptr];
      output.sent := output.sent + text;
      wptr := 0;
      assert text + parabuf[..0] == text;
    }

    // The first half: the lines up to the split point are printed.
    method PrintPart(ghost ws: seq<Word>, ghost end: nat)
      returns (splitPoint: nat, ghost path: seq<nat>, ghost b: seq<nat>, ghost lines: seq<string>)
      requires Ok() && wordLimit > 0 && wptr <= parabuf.Length && NoBlank(parabuf[..wptr])
      requires ws == word[..wordLimit] && Filled(ws, end) && end <= wptr
      modifies word, choice
      modifies output`out, output`outColumn, output`lastLineLength, output`sent
      ensures Ok() && word[..] == old(word[..]) && (old(output.Faithful()) ==> output.Faithful())
      ensures 0 < splitPoint <= wordLimit && output.sent == old(output.sent) + Words(parabuf[..], ws, 0, splitPoint)
      ensures output.out == old(output.out) + Joined(lines)
      ensures AllBest(ws, choice[..], old(Margins()))
      ensures AllPrinted(parabuf[..], ws, choice[..], old(Margins()),
                         output.Head(), output.Margin(), b, lines, splitPoint)
      ensures Path(choice[..], path, wordLimit) && |path| >= 2
      ensures if |path| == 2 then splitPoint == wordLimit else SplitsWell(choice[..], path, splitPoint)
    {
      hide NoBlank, Filled, Bounded, InBuffer, Words, AllBest, AllPrinted, Path, SplitsWell, Joined,
           Solid, Chain, FmtChoice.Recorded;
      ghost var buf := parabuf[..];
      var m := Margins();
      FilledBounded(ws, end, m);
      assert buf[..wptr] == parabuf[..wptr];
      FilledInBuffer(ws, end, buf, wptr);
      FmtChoice.FmtParagraph(word, choice, wordLimit, m);
      splitPoint, path := ChooseSplit(choice, wordLimit, ws, m);
      b, lines := PutParagraph(output, parabuf, word, choice, splitPoint, m, ws);
    }

    // The general case.
    method FlushLines() returns (ghost splitPoint: nat, ghost path: seq<nat>, ghost b: seq<nat>, ghost lines: seq<string>)
      requires InWord() && wordLimit > 0
      modifies this`wptr, this`wordLimit, word, choice, parabuf
      modifies output`out, output`outColumn, output`lastLineLength, output`sent
      ensures InWord() && Kept() == old(Kept()) && (old(output.Faithful()) ==> output.Faithful())
      ensures 0 < splitPoint <= old(wordLimit) && wordLimit == old(wordLimit) - splitPoint
      ensures wptr == old(wptr) - old(word[splitPoint].text) < old(wptr)
      ensures forall k :: 0 <= k <= wordLimit ==> MovedAt(old(word[splitPoint + k]), word[k], old(word[splitPoint].text))
      ensures output.out == old(output.out) + Joined(lines)
      ensures AllBest(old(word[..wordLimit]), choice[..], old(Margins()))
      ensures AllPrinted(old(parabuf[..]), old(word[..wordLimit]), choice[..], old(Margins()),
                         output.Head(), output.Margin(), b, lines, splitPoint)
      ensures Path(choice[..], path, old(wordLimit)) && |path| >= 2
      ensures if |path| == 2 then splitPoint == old(wordLimit) else SplitsWell(choice[..], path, splitPoint)
    {
      hide NoBlank, Filled, Words, AllBest, AllPrinted, Path, SplitsWell, Joined, Solid, MovedAt,
           Output.Head, Output.Margin, Output.Faithful;
      ghost var ws, end, buf, full := word[..wordLimit], word[wordLimit].text, parabuf[..], wptr;
      assert buf[..full] == parabuf[..wptr];
      var sp;
      sp, path, b, lines := PrintPart(ws, end);
      splitPoint := sp;
      WordsBefore(buf, ws, end, sp);
      ghost var shift := MoveDown(sp, ws, end);
      SentThenKept(old(output.sent), buf, shift, full);
    }

    /** flush_paragraph: nothing is lost, and where there are complete words, at least one of
        them and its text make room.  What is printed are lines along the best breaks up to a
        well-chosen split point; what remains are the words from there on. */
    method FlushParagraph() returns (ghost splitPoint: nat, ghost path: seq<nat>, ghost b: seq<nat>, ghost lines: seq<string>)
      requires InWord()
      modifies this`wptr, this`wordLimit, word, choice, parabuf
      modifies output`out, output`outColumn, output`lastLineLength, output`sent
      ensures InWord() && Kept() == old(Kept()) && (old(output.Faithful()) ==> output.Faithful())
      ensures old(wordLimit) == 0 ==> wptr == 0 && wordLimit == 0 && word[..] == old(word[..])
      ensures old(wordLimit) == 0 ==> output.out == old(output.out) + old(parabuf[..wptr])
      ensures old(wordLimit) > 0 ==>
                && 0 < splitPoint <= old(wordLimit) && wordLimit == old(wordLimit) - splitPoint
                && wptr == old(wptr) - old(word[splitPoint].text) < old(wptr)
                && (forall k :: 0 <= k <= wordLimit ==> MovedAt(old(word[splitPoint + k]), word[k], old(word[splitPoint].text)))
      ensures old(wordLimit) > 0 ==> output.out == old(output.out) + Joined(lines)
      ensures old(wordLimit) > 0 ==>
                && AllBest(old(word[..wordLimit]), choice[..], old(Margins()))
                && AllPrinted(old(parabuf[..]), old(word[..wordLimit]), choice[..], old(Margins()),
                              output.Head(), output.Margin(), b, lines, splitPoint)
                && Path(choice[..], path, old(wordLimit)) && |path| >= 2
                && if |path| == 2 then splitPoint == old(wordLimit) else SplitsWell(choice[..], path, splitPoint)
    {
      hide *;
      splitPoint, path, b, lines := 0, [], [], [];
      if wordLimit == 0 {
        FlushWord();
      } else {
        splitPoint, path, b, lines := FlushLines();
      }
    }

    method GetC() returns (c: Read)
      modifies this`input
      ensures Pending(c) + input == old(input)
    {
      if input == [] {
        c := Eof;
      } else {
        c := Got(input[0]);
        input := input[1..];
      }
    }

    /** get_space: reads blanks, and counts columns. */
    method GetSpace(c0: Read) returns (c: Read, ghost blanks: string)
      modifies this`input, this`inColumn, output`tabs
      ensures Pending(c0) + old(input) == blanks + (Pending(c) + input) && AllBlank(blanks)
      ensures inColumn == Column(old(inColumn), blanks) && output.tabs == (old(output.tabs) || '\t' in blanks)
      ensures c.Got? ==> c.c != ' ' && c.c != '\t'
      ensures |input| <= old(|input|) && (c0.Eof? ==> c == c0)
    {
      hide Column, AllBlank;
      c, blanks := c0, [];
      NoneBlank(inColumn);
      ghost var whole, rest := Pending(c0) + input, Pending(c0) + input;
      while c == Got(' ') || c == Got('\t')
        invariant rest == Pending(c) + input && whole == blanks + rest && AllBlank(blanks)
        invariant inColumn == Column(old(inColumn), blanks) && output.tabs == (old(output.tabs) || '\t' in blanks)
        invariant |input| <= old(|input|) && (c0.Eof? ==> c == c0)
        decreases |rest|
      {
        if c == Got(' ') {
          inColumn := inColumn + 1;
        } else {
          output.tabs := true;
          inColumn := (inColumn / TABWIDTH + 1) * TABWIDTH;
        }
        BlankNext(whole, blanks, c, input);
        ColumnSnoc(old(inColumn), blanks, c.c);
        blanks, rest := blanks + [c.c], input;
        c := GetC();
      }
    }

    /** set_other_indent */
    method SetOtherIndent(sameParagraph: bool)
      modifies this`otherIndent
      ensures otherIndent == if split || (!crown && !tagged) || (crown && !sameParagraph) then firstIndent
                             else if crown || (sameParagraph && inColumn != firstIndent) then inColumn
                             else if old(otherIndent) != firstIndent then old(otherIndent)
                             else if firstIndent == 0 then DEF_INDENT else 0
      ensures firstIndent <= MAXCOLUMN && inColumn <= MAXCOLUMN && old(otherIndent) <= MAXCOLUMN ==> otherIndent <= MAXCOLUMN
    {
      if split {
        otherIndent := firstIndent;
      } else if crown {
        otherIndent := if sameParagraph then inColumn else firstIndent;
      } else if tagged {
        if sameParagraph && inColumn != firstIndent {
          otherIndent := inColumn;
        } else if otherIndent == firstIndent {
          otherIndent := if firstIndent == 0 then DEF_INDENT else 0;
        }
      } else {
        otherIndent := firstIndent;
      }
    }

    /** Everything read or still to be read, without the blanks. */
    ghost function Total(c: Read): string
      reads this`wptr, this`input, output`sent, parabuf
      requires wptr <= parabuf.Length
    {
      Kept() + Solid(Pending(c) + input)
    }

    // Makes room in a full buffer while a word is being read.
    method MakeRoom()
      requires InWord() && inColumn <= MAXCOLUMN
      modifies this`wptr, this`wordLimit, this`otherIndent, word, choice, parabuf
      modifies output`out, output`outColumn, output`lastLineLength, output`sent
      ensures InWord() && Kept() == old(Kept()) && (old(output.Faithful()) ==> output.Faithful())
      ensures wptr <= old(wptr) && wordLimit <= old(wordLimit)
      ensures old(wptr) > 0 ==> wptr < old(wptr)
      ensures old(wordLimit) > 0 ==> wordLimit < old(wordLimit)
      ensures wptr - word[wordLimit].text <= old(wptr - word[wordLimit].text)
      ensures old(wordLimit) > 0 ==> SameWord(old(word[wordLimit]), word[wordLimit])
      ensures old(wordLimit) > 0 ==> wptr - word[wordLimit].text == old(wptr - word[wordLimit].text)
    {
      hide NoBlank, Filled, AllBest, AllPrinted, Path, SplitsWell, Joined, Solid, Moved;
      SetOtherIndent(true);
      ghost var n := wordLimit;
      ghost var splitPoint, path, b, lines := FlushParagraph();
      if n > 0 {
        ghost var k := wordLimit;
        assert MovedAt(old(word[splitPoint + k]), word[k], old(word[splitPoint].text));
        MovedText(old(word[splitPoint + k]), word[k], old(word[splitPoint].text));
      } else {
        FilledNone(word[..0], word[0].text);
      }
    }

    // *wptr++ = c
    method StoreChar(ch: char)
      requires InWord() && wptr < MAXCHARS && !Blank(ch)
      modifies this`wptr, parabuf
      ensures InWord() && wptr == old(wptr) + 1 && Kept() == old(Kept()) + [ch]
    {
      hide Filled;
      ghost var text := parabuf[..wptr];
      parabuf[wptr] := ch;
      wptr := wptr + 1;
      assert parabuf[..wptr] == text + [ch];
    }

    // From column col, the rest of the line leads no further than the widest column.
    ghost predicate Fits(c: Read, col: int)
      reads this`input
    {
      0 <= col && LineEnd(col, Pending(c) + input) <= MAXCOLUMN
    }

    // A character of a word, once there is room for it.
    method ScanChar(c0: Read) returns (c: Read)
      requires InWord() && c0.Got? && !Blank(c0.c) && Fits(c0, inColumn + wptr - word[wordLimit].text)
      modifies this`wptr, this`wordLimit, this`otherIndent, this`input, word, choice, parabuf
      modifies output`out, output`outColumn, output`lastLineLength, output`sent
      ensures InWord() && word[wordLimit].text < wptr && wordLimit <= old(wordLimit)
      ensures Total(c) == old(Total(c0)) && (old(output.Faithful()) ==> output.Faithful())
      ensures Fits(c, inColumn + wptr - word[wordLimit].text)
      ensures |input| < old(|input|) || (c.Eof? && input == old(input))
    {
      hide Solid, NoBlank, Filled, LineEnd, Column;
      ghost var before := inColumn + wptr - word[wordLimit].text;
      if wptr == MAXCHARS {
        MakeRoom();
      }
      ghost var col := inColumn + wptr - word[wordLimit].text;
      LineEndMonotone(col, before, [c0.c] + input);
      ReadNext(col, c0.c, input);
      StoreChar(c0.c);
      c := GetC();
    }

    /** The inner loop of get_line: a word, up to the next space or the end of the input. */
    method ScanWord(c0: Read) returns (c: Read)
      requires InWord() && word[wordLimit].text == wptr && c0.Got? && !Blank(c0.c) && Fits(c0, inColumn)
      modifies this`wptr, this`wordLimit, this`otherIndent, this`input, word, choice, parabuf
      modifies output`out, output`outColumn, output`lastLineLength, output`sent
      ensures InWord() && word[wordLimit].text < wptr && wordLimit <= old(wordLimit)
      ensures Total(c) == old(Total(c0)) && (old(output.Faithful()) ==> output.Faithful())
      ensures c.Got? ==> IsSpace(c.c)
      ensures Fits(c, inColumn + wptr - word[wordLimit].text)
      ensures |input| < old(|input|) || c.Eof?
    {
      hide Solid, NoBlank, Filled, LineEnd, Column, Output.Faithful, Fits, Kept;
      c := c0;
      while true
        invariant InWord() && wordLimit <= old(wordLimit) && c.Got? && !Blank(c.c)
        invariant Total(c) == old(Total(c0)) && (old(output.Faithful()) ==> output.Faithful())
        invariant Fits(c, inColumn + wptr - word[wordLimit].text)
        invariant |input| <= old(|input|)
        decreases |input|
      {
        c := ScanChar(c);
        if c.Eof? || IsSpace(c.c) {
          break;
        }
      }
    }

    /** get_line, up to the end of the line: the words of the line are read; nothing is lost, and
        the buffers never overflow. */
    method GetLine(c0: Read) returns (c: Read)
      requires AtWord() && c0.Got? && !Blank(c0.c) && Fits(c0, inColumn)
      modifies this`wptr, this`wordLimit, this`otherIndent, this`input, this`inColumn, word, choice, parabuf
      modifies output`out, output`outColumn, output`lastLineLength, output`sent, output`tabs
      ensures AtWord() && wordLimit > 0 && inColumn <= MAXCOLUMN
      ensures Total(c) == old(Total(c0)) && (old(output.Faithful()) ==> output.Faithful())
      ensures c == Eof || c == Got('\n')
    {
      hide Solid, NoBlank, Filled, LineEnd, Column, Kept;
      c := c0;
      while true
        invariant AtWord() && c.Got? && !Blank(c.c) && Fits(c, inColumn)
        invariant Total(c) == old(Total(c0)) && (old(output.Faithful()) ==> output.Faithful())
        decreases |input|
      {
        ghost var gap;
        c, gap := GetWord(c);
        if wordLimit == MAXWORDS - 2 {
          MakeRoom();
        }
        CountWord();
        if c == Eof || c == Got('\n') {
          break;
        }
      }
    }

    /** The end of a paragraph: the last word ends a sentence, and everything kept is printed. */
    method PrintParagraph() returns (ghost ws: seq<Word>, ghost b: seq<nat>, ghost lines: seq<string>)
      requires AtWord() && wordLimit > 0
      modifies word, choice
      modifies output`out, output`outColumn, output`lastLineLength, output`sent
      ensures output.sent == old(Kept()) && output.out == old(output.out) + Joined(lines)
      ensures old(output.Faithful()) ==> output.Faithful()
      ensures |ws| == wordLimit && ws[..wordLimit - 1] == old(word[..wordLimit - 1])
      ensures ws[wordLimit - 1] == old(word[wordLimit - 1]).(period := true, ends := true)
      ensures AllBest(ws, choice[..], old(Margins()))
      ensures AllPrinted(parabuf[..], ws, choice[..], old(Margins()),
                         output.Head(), output.Margin(), b, lines, wordLimit)
    {
      hide NoBlank, Words, AllBest, AllPrinted, Joined, Bounded, InBuffer, Solid, Chain, FmtChoice.Recorded;
      ghost var before := word[..wordLimit];
      word[wordLimit - 1] := word[wordLimit - 1].(period := true, ends := true);
      ws := word[..wordLimit];
      FilledSame(before, ws, wptr);
      var m := Margins();
      FilledBounded(ws, wptr, m);
      assert parabuf[..][..wptr] == parabuf[..wptr];
      FilledInBuffer(ws, wptr, parabuf[..], wptr);
      FmtChoice.FmtParagraph(word, choice, wordLimit, m);
      ChainEnds(ws, choice[..], m, 0);
      b, lines := PutParagraph(output, parabuf, word, choice, wordLimit, m, ws);
      WordsBefore(parabuf[..], ws, wptr, wordLimit);
    }

    // word_limit++
    method CountWord()
      requires InWord() && word[wordLimit].length > 0 && word[wordLimit].text + word[wordLimit].length == wptr
      requires wordLimit < MAXWORDS - 2
      modifies this`wordLimit
      ensures AtWord() && wordLimit == old(wordLimit) + 1
    {
      hide NoBlank, Filled;
      FilledSnoc(word[..wordLimit], word[wordLimit], wptr);
      assert word[..wordLimit + 1] == word[..wordLimit] + [word[wordLimit]];
      wordLimit := wordLimit + 1;
    }

    // One word and the space behind it, over gap columns.
    method GetWord(c0: Read) returns (c: Read, ghost gap: nat)
      requires AtWord() && c0.Got? && !Blank(c0.c) && Fits(c0, inColumn)
      modifies this`wptr, this`wordLimit, this`otherIndent, this`input, this`inColumn, word, choice, parabuf
      modifies output`out, output`outColumn, output`lastLineLength, output`sent, output`tabs
      ensures InWord() && word[wordLimit].length > 0 && word[wordLimit].text + word[wordLimit].length == wptr
      ensures Total(c) == old(Total(c0)) && (old(output.Faithful()) ==> output.Faithful())
      ensures Fits(c, inColumn)
      ensures c.Got? ==> c.c == '\n' || !Blank(c.c)
      ensures |input| < old(|input|) || c.Eof?
      ensures Finished(word[wordLimit], parabuf[word[wordLimit].text..wptr], gap, c, uniform)
      ensures inColumn == old(inColumn) + word[wordLimit].length + gap
    {
      hide Solid, NoBlank, Filled, LineEnd, Column, Finished;
      SetLimit(word[wordLimit].(text := wptr));
      c := ScanWord(c0);
      inColumn := inColumn + wptr - word[wordLimit].text;
      var start := inColumn;
      c := SkipSpace(c);
      gap := inColumn - start;
      var w := DescribeWord(word[wordLimit].(length := wptr - word[wordLimit].text), parabuf[word[wordLimit].text..wptr],
                            inColumn - start, c, uniform);
      SetLimit(w);
    }

    // get_space, as it concerns what is still to be read.
    method SkipSpace(c0: Read) returns (c: Read)
      requires wptr <= parabuf.Length && (c0.Got? ==> IsSpace(c0.c)) && Fits(c0, inColumn)
      modifies this`input, this`inColumn, output`tabs
      ensures Total(c) == old(Total(c0)) && Fits(c, inColumn) && inColumn >= old(inColumn)
      ensures c.Got? ==> c.c == '\n' || !Blank(c.c)
      ensures |input| <= old(|input|) && (c0.Eof? ==> c == c0)
    {
      hide Solid, LineEnd, Column, Kept;
      ghost var blanks;
      c, blanks := GetSpace(c0);
      BlanksPass(old(inColumn), blanks, Pending(c) + input);
    }

    // Writes to the place of the word being read.
    method SetLimit(w: Word)
      requires Ok() && Filled(word[..wordLimit], w.text) && NoBlank(parabuf[..wptr]) && w.text <= wptr
      modifies word
      ensures InWord() && word[wordLimit] == w
      ensures word[..wordLimit] == old(word[..wordLimit])
    {
      hide NoBlank, Filled;
      ghost var ws := word[..wordLimit];
      word[wordLimit] := w;
      assert word[..wordLimit] == ws;
    }
  }

  // What get_line and check_punctuation record about a word, with c behind a gap.
  ghost predicate Finished(w: Word, text: string, gap: nat, c: Read, uniform: bool) {
    && text != [] && w.length == |text|
    && w.paren == IsOpen(text[0]) && w.punct == IsPunct(text[|text| - 1]) && w.period == EndsPeriod(text)
    && w.ends == (c == Eof || (w.period && (c == Got('\n') || gap > 1)))
    && w.space == if c == Got('\n') || c == Eof || uniform then (if w.ends then 2 else 1) else gap
  }

  method DescribeWord(w0: Word, text: string, space: nat, c: Read, uniform: bool) returns (w: Word)
    requires text != [] && w0.length == |text|
    ensures Finished(w, text, space, c, uniform) && w.text == w0.text && w.length == w0.length
  {
    w := CheckPunctuation(w0, text);
    w := w.(space := space);
    w := w.(ends := c == Eof || (w.period && (c == Got('\n') || w.space > 1)));
    if c == Got('\n') || c == Eof || uniform {
      w := w.(space := if w.ends then 2 else 1);
    }
  }

  // strchr also finds the terminating NUL
  predicate IsOpen(c: char) { c in "(['`\"" || c == '\0' }

  predicate IsClose(c: char) { c in ")]'\"" || c == '\0' }

  predicate IsPeriod(c: char) { c in ".?!" || c == '\0' }

  // ispunct, in the C locale
  predicate IsPunct(c: char) {
    '!' <= c <= '/' || ':' <= c <= '@' || '[' <= c <= '`' || '{' <= c <= '~'
  }

  /** The word ends in a period, which closing brackets and quotes may follow. */
  predicate EndsPeriod(text: string)
    requires text != []
  {
    if |text| > 1 && IsClose(text[|text| - 1]) then EndsPeriod(text[..|text| - 1]) else IsPeriod(text[|text| - 1])
  }

  // A period is the last character that is no closing bracket or quote, or else the first one.
  lemma {:induction false} EndsPeriodMeans(text: string)
    requires text != []
    ensures EndsPeriod(text) <==> exists k :: PeriodAt(text, k)
    decreases |text|
  {
    var n := |text| - 1;
    if n > 0 && IsClose(text[n]) {
      EndsPeriodMeans(text[..n]);
      forall k
        ensures PeriodAt(text[..n], k) <==> PeriodAt(text, k)
      {
        PeriodBefore(text, k);
      }
    } else {
      assert PeriodAt(text, n) <==> IsPeriod(text[n]);
    }
  }

  // At k there is a period, with nothing but closing brackets and quotes behind it.
  predicate PeriodAt(text: string, k: int) {
    && 0 <= k < |text| && text[k] in ".?!\0" && (k == 0 || text[k] !in ")]'\"\0")
    && forall j :: k < j < |text| ==> text[j] in ")]'\"\0"
  }

  lemma PeriodBefore(text: string, k: int)
    requires |text| > 1 && text[|text| - 1] in ")]'\"\0"
    ensures PeriodAt(text[..|text| - 1], k) <==> PeriodAt(text, k)
  {
    assert forall j :: 0 <= j < |text| - 1 ==> text[..|text| - 1][j] == text[j];
  }

  /** The marks of a word, character by character; a sentence ends at the end of the text, and behind
      a period with a line end or at least two columns of space, which is then kept as two. */
  lemma MarksMean(w: Word, text: string, gap: nat, c: Read, uniform: bool)
    requires Finished(w, text, gap, c, uniform)
    ensures c == Eof ==> w.ends && w.space == 2
    ensures c == Got('\n') ==> w.ends == w.period && w.space == (if w.period then 2 else 1)
    ensures c.Got? && c.c != '\n' ==>
              && (w.ends <==> w.period && gap >= 2)
              && w.space == (if !uniform then gap else if w.period && gap >= 2 then 2 else 1)
    ensures w.paren <==> text[0] in "(['`\"\0"
    ensures w.punct <==> text[|text| - 1] in "!\"#$%&'()*+,-./:;<=>?@[\\]^_`{|}~"
    ensures w.period <==> exists k :: PeriodAt(text, k)
  {
    EndsPeriodMeans(text);
    PunctMeans(text[|text| - 1]);
    hide IsPunct, EndsPeriod, PeriodAt;
  }

  lemma PunctMeans(c: char)
    ensures IsPunct(c) <==> c in "!\"#$%&'()*+,-./:;<=>?@[\\]^_`{|}~"
  {
  }

  /** check_punctuation */
  method CheckPunctuation(w: Word, text: string) returns (r: Word)
    requires text != []
    ensures r == w.(paren := IsOpen(text[0]), punct := IsPunct(text[|text| - 1]), period := EndsPeriod(text))
  {
    var finish := |text| - 1;
    var fin := text[finish];
    assert text[..finish + 1] == text;
    while 0 < finish && IsClose(text[finish])
      invariant 0 <= finish < |text| && EndsPeriod(text) == EndsPeriod(text[..finish + 1])
    {
      assert text[..finish + 1][..finish] == text[..finish];
      finish := finish - 1;
    }
    r := w.(paren := IsOpen(text[0]), punct := IsPunct(fin), period := IsPeriod(text[finish]));
  }

  lemma {:induction false} BlanksPass(col: nat, blanks: string, rest: string)
    requires AllBlank(blanks)
    ensures Solid(blanks + rest) == Solid(rest)
    ensures col <= Column(col, blanks)
    ensures LineEnd(col, blanks + rest) == LineEnd(Column(col, blanks), rest)
  {
    SolidConcat(blanks, rest);
    SolidBlank(blanks);
    BlanksLead(col, blanks, rest);
  }

  lemma {:induction false} BlanksLead(col: nat, blanks: string, rest: string)
    requires AllBlank(blanks)
    ensures col <= Column(col, blanks)
    ensures LineEnd(col, blanks + rest) == LineEnd(Column(col, blanks), rest)
    decreases |blanks|
  {
    hide LineEnd, Solid;
    if blanks == [] {
      assert blanks + rest == rest;
    } else {
      var n := |blanks| - 1;
      BlanksLead(col, blanks[..n], [blanks[n]] + rest);
      ReadNext(Column(col, blanks[..n]), blanks[n], rest);
      assert blanks[..n] + ([blanks[n]] + rest) == blanks + rest;
    }
  }

  lemma {:induction false} ReadNext(col: nat, ch: char, rest: string)
    ensures Solid([ch] + rest) == (if Blank(ch) then [] else [ch]) + Solid(rest)
    ensures LineEnd(col, [ch] + rest) == if ch == '\n' then col else LineEnd(NextColumn(col, ch), rest)
  {
    SolidConcat([ch], rest);
    assert [ch][..0] == [] && ([ch] + rest)[1..] == rest;
  }

  lemma {:induction false} BlankNext(text: string, blanks: string, c: Read, rest: string)
    requires text == blanks + (Pending(c) + rest) && AllBlank(blanks) && (c == Got(' ') || c == Got('\t'))
    ensures text == blanks + [c.c] + rest && AllBlank(blanks + [c.c])
    ensures '\t' in blanks + [c.c] <==> '\t' in blanks || c.c == '\t'
    ensures |Pending(c) + rest| == 1 + |rest|
  {
    assert blanks + (Pending(c) + rest) == blanks + [c.c] + rest;
  }

  // The same word, wherever its text is.
  ghost predicate SameWord(v: Word, w: Word) {
    w == v.(text := w.text)
  }

  // ---------- reading ----------

  function Pending(c: Read): string {
    if c.Got? then [c.c] else []
  }

  // isspace, in the C locale
  predicate IsSpace(c: char) {
    c == ' ' || c == '\t' || c == '\n' || c == '\r' || c == '\U{0B}' || c == '\U{0C}'
  }

  // The column in which the line ends that goes on with s in column col.
  function LineEnd(col: nat, s: string): (r: nat)
    ensures col <= r
    decreases |s|
  {
    if s == [] || s[0] == '\n' then col else LineEnd(NextColumn(col, s[0]), s[1..])
  }

  lemma {:induction false} LineEndMonotone(a: nat, b: nat, s: string)
    requires a <= b
    ensures LineEnd(a, s) <= LineEnd(b, s)
    decreases |s|
  {
    if s != [] && s[0] != '\n' {
      LineEndMonotone(NextColumn(a, s[0]), NextColumn(b, s[0]), s[1..]);
    }
  }

  // The word moved down, in place of the old one.
  ghost predicate MovedAt(v: Word, w: Word, shift: nat) {
    shift <= v.text && w == Moved(v, shift)
  }

  lemma {:induction false} FilledSame(ws: seq<Word>, vs: seq<Word>, end: nat)
    requires Filled(ws, end) && |ws| == |vs|
    requires forall k :: 0 <= k < |ws| ==> vs[k].text == ws[k].text && vs[k].length == ws[k].length
    ensures Filled(vs, end)
  {
    forall k: nat | k < |vs|
      ensures Follows(vs, end, k)
    {
      assert Follows(ws, end, k);
    }
  }

  lemma {:induction false} MovedText(v: Word, w: Word, shift: nat)
    requires MovedAt(v, w, shift)
    ensures w.text + shift == v.text && SameWord(v, w)
  {
  }

  lemma {:induction false} FilledNone(ws: seq<Word>, end: nat)
    requires Filled(ws, end) && ws == []
    ensures end == 0
  {
  }

  lemma {:induction false} NoneBlank(col: nat)
    ensures Column(col, []) == col && AllBlank([])
  {
  }

  lemma {:induction false} FilledRising(ws: seq<Word>, end: nat, j: nat)
    requires Filled(ws, end) && 0 < j <= |ws|
    ensures forall k :: j <= k < |ws| ==> ws[j].text <= ws[k].text
    ensures 0 < (if j < |ws| then ws[j].text else end) <= end
    decreases |ws| - j
  {
    FilledUpTo(ws, end, j - 1);
    assert Follows(ws, end, j - 1);
    if j < |ws| {
      FilledUpTo(ws, end, j);
      FilledRising(ws, end, j + 1);
      assert Follows(ws, end, j);
    }
  }

  lemma {:induction false} FlushKeeps(ws: seq<Word>, end: nat, vs: seq<Word>, split: nat, shift: nat,
                                      buf: seq<char>, full: nat, kept: seq<char>)
    requires Filled(ws, end) && 0 < split <= |ws| && |vs| == |ws| - split
    requires shift == (if split < |ws| then ws[split].text else end)
    requires forall k :: 0 <= k < |vs| ==> MovedAt(ws[split + k], vs[k], shift)
    requires shift <= full && end <= full <= |buf| && NoBlank(buf[..full]) && kept == buf[shift..full]
    ensures shift <= end && Filled(vs, end - shift) && NoBlank(kept)
    ensures buf[..shift] + kept == buf[..full]
  {
    hide Filled;
    assert MovedDown(ws, vs, split, shift) by {
      forall k: nat | k < |vs|
        ensures IsMoved(ws, vs, split, shift, k)
      {
        assert MovedAt(ws[split + k], vs[k], shift);
      }
    }
    FilledMoved(ws, end, vs, split, shift);
    assert forall i :: 0 <= i < |kept| ==> kept[i] == buf[..full][shift + i];
  }
}
