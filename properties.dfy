/** What the assembler guarantees, stated over the model in `Assembler`:
    how lines are normalised, what one line does, where a run of lines puts
    its bytes, when it fails, and how the image is rendered. */
module AssemblerFacts {
  import opened Options
  import opened Text
  import opened Numerals
  import opened Opcodes
  import opened Assembler

  // ------------------------------------------------------------ normalisation

  /** A normalised line holds no comment delimiter, no lower-case letter and
      no whitespace at either end. */
  lemma NormaliseShape(raw: string)
    ensures var r := Normalise(raw);
      ';' !in r && (forall k :: 0 <= k < |r| ==> !IsLower(r[k])) &&
      (r == [] || (!IsSpace(r[0]) && !IsSpace(r[|r| - 1])))
  {
    var b := BeforeFirst(raw, ';');
    var t := Strip(b);
    var r := Upper(t);
    assert r == Normalise(raw);
    assert ';' !in t by {
      assert ';' !in b;
    }
    UpperContains(t, ';');
    if r != [] {
      UpperCharSpace(t[0]);
      UpperCharSpace(t[|t| - 1]);
      assert r[0] == UpperChar(t[0]) && r[|r| - 1] == UpperChar(t[|t| - 1]);
    }
  }

  /** Normalising is upper-casing the whole line first and cutting and
      trimming afterwards. */
  lemma NormaliseUpperFirst(raw: string)
    ensures Normalise(raw) == Strip(BeforeFirst(Upper(raw), ';'))
  {
    UpperStrip(BeforeFirst(raw, ';'));
    UpperBeforeFirst(raw, ';');
  }

  /** Lines are compared without regard to case: two raw lines that differ
      only in the case of their letters normalise to the same line. */
  lemma NormaliseIgnoresCase(s: string, t: string)
    requires |s| == |t| && forall k :: 0 <= k < |s| ==> UpperChar(s[k]) == UpperChar(t[k])
    ensures Normalise(s) == Normalise(t)
  {
    NormaliseUpperFirst(s);
    NormaliseUpperFirst(t);
    assert Upper(s) == Upper(t);
  }

  /** Everything from the first `;` on is a comment and does not matter. */
  lemma NormaliseDropsComment(s: string, comment: string)
    ensures Normalise(s + [';'] + comment) == Normalise(s)
  {
    var u := s + [';'] + comment;
    if ';' in s {
      var i := IndexOf(s, ';');
      assert u[i] == ';' && u[..i] == s[..i];
      assert IndexOf(u, ';') == i by {
        var j := IndexOf(u, ';');
        assert j <= i;
        assert u[..j] == s[..j];
      }
    } else {
      assert u[|s|] == ';' && u[..|s|] == s;
      assert IndexOf(u, ';') == |s| by {
        var j := IndexOf(u, ';');
        assert j <= |s|;
      }
    }
  }

  /** A line written the way the example programs are, indented and padded,
      normalises to its upper-cased word; so does the line with a comment
      after it. */
  lemma NormaliseIndentedLine(indent: string, word: string, pad: string, comment: string)
    requires forall k :: 0 <= k < |indent| ==> IsSpace(indent[k])
    requires forall k :: 0 <= k < |pad| ==> IsSpace(pad[k])
    requires word == [] || (!IsSpace(word[0]) && !IsSpace(word[|word| - 1]))
    requires ';' !in word
    ensures Normalise(indent + word + pad) == Upper(word)
    ensures Normalise(indent + word + pad + [';'] + comment) == Upper(word)
  {
    var line := indent + word + pad;
    NormaliseDropsComment(line, comment);
    PaddedHasNoComment(indent, word, pad);
    assert BeforeFirst(line, ';') == line;
    StripPadded(indent, word, pad);
  }

  lemma PaddedHasNoComment(indent: string, word: string, pad: string)
    requires forall k :: 0 <= k < |indent| ==> IsSpace(indent[k])
    requires forall k :: 0 <= k < |pad| ==> IsSpace(pad[k])
    requires ';' !in word
    ensures ';' !in indent + word + pad
  {
    var line := indent + word + pad;
    forall k | 0 <= k < |line| ensures line[k] != ';' {
      if k < |indent| {
        assert line[k] == indent[k];
      } else if k < |indent| + |word| {
        assert line[k] == word[k - |indent|];
      } else {
        assert line[k] == pad[k - |indent| - |word|];
      }
    }
  }

  lemma StripPadded(indent: string, word: string, pad: string)
    requires forall k :: 0 <= k < |indent| ==> IsSpace(indent[k])
    requires forall k :: 0 <= k < |pad| ==> IsSpace(pad[k])
    requires word == [] || (!IsSpace(word[0]) && !IsSpace(word[|word| - 1]))
    ensures Strip(indent + word + pad) == word
  {
    var line := indent + word + pad;
    if word == [] {
      var blank := indent + pad;
      assert line == blank + [];
      assert forall k :: 0 <= k < |blank| ==> IsSpace(blank[k]);
      TrimStartSpaces(blank, []);
    } else {
      assert line == indent + (word + pad);
      TrimStartSpaces(indent, word + pad);
      TrimEndSpaces(word, pad);
    }
  }

  /** A normalised line is its own normal form. */
  lemma NormaliseIdempotent(raw: string)
    ensures Normalise(Normalise(raw)) == Normalise(raw)
  {
    var b := BeforeFirst(raw, ';');
    var r := Normalise(raw);
    NormaliseShape(raw);
    assert BeforeFirst(r, ';') == r;
    UpperStrip(b);
    StripIdempotent(Upper(b));
    assert Strip(r) == r;
    UpperIdempotent(Strip(b));
  }

  /** A raw line of only blanks, or of blanks and a comment, is not dropped:
      it survives the length test and becomes the empty line. */
  lemma BlankLineSurvives(raw: string, comment: string)
    requires forall k :: 0 <= k < |raw| ==> IsSpace(raw[k])
    ensures |raw| > 0 ==> NormaliseAll([raw]) == [[]]
    ensures NormaliseAll([raw + [';'] + comment]) == [[]]
  {
    BlankLineIsEmpty(raw, comment);
    NormaliseOne(raw);
    NormaliseOne(raw + [';'] + comment);
  }

  /** Blanks, with or without a comment after them, normalise to nothing. */
  lemma BlankLineIsEmpty(raw: string, comment: string)
    requires forall k :: 0 <= k < |raw| ==> IsSpace(raw[k])
    ensures Normalise(raw) == [] && Normalise(raw + [';'] + comment) == []
  {
    NormaliseIndentedLine(raw, [], [], comment);
    assert raw + [] + [] == raw;
  }

  /** A single raw line is kept, normalised, exactly when it is not empty. */
  lemma NormaliseOne(raw: string)
    ensures NormaliseAll([raw]) == if |raw| > 0 then [Normalise(raw)] else []
  {
    assert [raw][1..] == [];
  }

  /** The raw lines are filtered and normalised one by one, in order: the
      result for a concatenation is the concatenation of the results. */
  lemma {:induction false} NormaliseAllAppend(xs: seq<string>, ys: seq<string>)
    ensures NormaliseAll(xs + ys) == NormaliseAll(xs) + NormaliseAll(ys)
  {
    if xs == [] {
      assert xs + ys == ys;
    } else {
      var head := if |xs[0]| > 0 then [Normalise(xs[0])] else [];
      assert (xs + ys)[0] == xs[0] && (xs + ys)[1..] == xs[1..] + ys;
      assert NormaliseAll(xs + ys) == head + NormaliseAll(xs[1..] + ys);
      NormaliseAllAppend(xs[1..], ys);
      assert NormaliseAll(xs) == head + NormaliseAll(xs[1..]);
    }
  }

  /** And the empty line is a bad token. */
  lemma EmptyLineIsBadToken(s: State)
    ensures Step(s, []) == Err(BadToken([]))
  {
    if Opcode([]).Some? {
      MnemonicSpelled([]);
    }
  }

  /** Every line the assembler walks through is already normalised. */
  lemma {:induction false} SourceLinesNormalised(raws: seq<string>)
    ensures forall line :: line in NormaliseAll(raws) ==> Normalise(line) == line
  {
    if raws != [] {
      SourceLinesNormalised(raws[1..]);
      NormaliseIdempotent(raws[0]);
      var head := if |raws[0]| > 0 then [Normalise(raws[0])] else [];
      assert NormaliseAll(raws) == head + NormaliseAll(raws[1..]);
      forall line | line in NormaliseAll(raws)
        ensures Normalise(line) == line
      {
        assert line in head || line in NormaliseAll(raws[1..]);
      }
    }
  }

  // ------------------------------------------------------------ the instruction table

  /** No mnemonic contains a colon or a semicolon, and none reads as a
      hex literal: a mnemonic line is never taken for a label, and the table
      and the literals never compete for a line. */
  lemma MnemonicIsNotLabelOrLiteral(mnemonic: string)
    requires Opcode(mnemonic).Some?
    ensures ':' !in mnemonic && ';' !in mnemonic && !IsHex(mnemonic)
  {
    MnemonicSpelled(mnemonic);
  }

  /** So a hex literal is never looked up as a mnemonic. */
  lemma HexIsNotMnemonic(literal: string)
    requires IsHex(literal)
    ensures Opcode(literal) == None
  {
    if Opcode(literal).Some? {
      MnemonicIsNotLabelOrLiteral(literal);
    }
  }

  /** Every mnemonic is upper-case, so a normalised line can match it. */
  lemma MnemonicIsUpperCase(mnemonic: string)
    requires Opcode(mnemonic).Some?
    ensures forall k :: 0 <= k < |mnemonic| ==> !IsLower(mnemonic[k])
  {
    MnemonicSpelled(mnemonic);
  }

  /** A mnemonic line is classified as that instruction. */
  lemma MnemonicIsInstruction(mnemonic: string)
    requires Opcode(mnemonic).Some?
    ensures Classify(mnemonic) == Instruction(Opcode(mnemonic).value)
  {
    MnemonicIsNotLabelOrLiteral(mnemonic);
  }

  // ------------------------------------------------------------ one line

  /** A label moves the cursor to the hex value of the text before its first
      colon and leaves every cell as it was; text that is not a hex number
      there is a bad label. The cursor is not checked against the image here:
      an address past the end fails only when something is written there. */
  lemma LabelMovesCursor(s: State, line: string)
    requires ':' in line
    ensures var text := BeforeFirst(line, ':');
      Step(s, line) == if IsHex(text) then Ok(State(s.mem, HexValue(text))) else Err(BadLabel(line))
  {
  }

  /** A line that emits: a mnemonic, or else a hex literal, on a line
      without a colon. */
  predicate Emits(line: string) {
    ':' !in line && (Opcode(line).Some? || IsHex(line))
  }

  /** The byte an emitting line writes: a mnemonic's opcode, or else the
      literal's value. */
  function Emitted(line: string): nat
    requires Emits(line)
  {
    if Opcode(line).Some? then Opcode(line).value else HexValue(line)
  }

  /** An emitting line writes exactly its byte at the cursor, changes no
      other cell and advances the cursor by one; with the cursor at or past
      the end of the image it fails with an overflow at that address. */
  lemma EmitAtCursor(s: State, line: string)
    requires Emits(line)
    ensures Step(s, line) ==
      if s.cursor < |s.mem| then Ok(State(s.mem[s.cursor := Emitted(line)], s.cursor + 1))
      else Err(Overflow(line, s.cursor))
  {
  }

  /** The ways one line can fail, and no others. */
  lemma StepFailure(s: State, line: string)
    ensures Step(s, line).Err? <==>
      (':' in line && !IsHex(BeforeFirst(line, ':'))) ||
      (':' !in line && Opcode(line).None? && !IsHex(line)) ||
      (Emits(line) && s.cursor >= |s.mem|)
    ensures ':' !in line && Opcode(line).None? && !IsHex(line) ==>
      Step(s, line) == Err(BadToken(line))
  {
  }

  // The lemmas about particular words take each word as a parameter pinned
  // down by `requires`, not as a literal in the `ensures`, which keeps the
  // verifier from unfolding every definition on the literal at each use.

  /** `FF` is 255 and `0` is 0. */
  lemma LiteralExamples(s: State, ff: string, zero: string)
    requires s.cursor < |s.mem| && ff == "FF" && zero == "0"
    ensures Step(s, ff) == Ok(State(s.mem[s.cursor := 255], s.cursor + 1))
    ensures Step(s, zero) == Ok(State(s.mem[s.cursor := 0], s.cursor + 1))
  {
    LiteralStep(s, ff, 255);
    LiteralStep(s, zero, 0);
  }

  /** A hex literal of value `v` writes `v` at the cursor. */
  lemma LiteralStep(s: State, literal: string, v: nat)
    requires s.cursor < |s.mem|
    requires (literal == "FF" && v == 255) || (literal == "0" && v == 0) || (literal == "100" && v == 256)
    ensures Step(s, literal) == Ok(State(s.mem[s.cursor := v], s.cursor + 1))
  {
    assert IsHex(literal);
    HexIsNotMnemonic(literal);
    assert HexValue(literal) == v by {
      if literal == "FF" {
        HexValueTwoDigits(literal);
        assert literal[..1] == "F";
      } else if literal == "0" {
        assert literal[..0] == [];
      } else {
        assert literal[..2] == "10";
        assert "10"[..1] == "1";
        assert "1"[..0] == [];
      }
    }
    assert Classify(literal) == Literal(literal);
  }

  /** `FOO`, neither a mnemonic nor hex, is a bad token rather than a zero
      cell. */
  lemma UnknownWord(s: State, foo: string)
    requires foo == "FOO"
    ensures Step(s, foo) == Err(BadToken(foo))
  {
    assert !IsHexDigit(foo[1]);
    if Opcode(foo).Some? {
      var k := OpcodeFound(foo);
      assert false;
    }
  }

  /** A literal wider than a byte is written as its full value, and renders
      as more than eight binary digits. */
  lemma WideLiteral(s: State, hundred: string)
    requires s.cursor < |s.mem| && hundred == "100"
    ensures Step(s, hundred) == Ok(State(s.mem[s.cursor := 256], s.cursor + 1))
    ensures |Cell(256)| == 10
  {
    LiteralStep(s, hundred, 256);
    NineBitCell(256);
  }

  // ------------------------------------------------------------ a run of lines

  /** Running two stretches of lines one after the other is running them
      together. */
  lemma {:induction false} RunAppend(s: State, xs: seq<string>, ys: seq<string>)
    ensures Run(s, xs + ys) ==
      match Run(s, xs)
      case Err(f) => Err(f)
      case Ok(t) => Run(t, ys)
    decreases |xs|
  {
    if xs == [] {
      assert xs + ys == ys;
    } else {
      assert (xs + ys)[0] == xs[0];
      assert (xs + ys)[1..] == xs[1..] + ys;
      match Step(s, xs[0])
      case Err(_) =>
      case Ok(t) => RunAppend(t, xs[1..], ys);
    }
  }

  /** Without labels, emitting lines fill consecutive cells from the cursor:
      the k-th lands at the cursor plus k, the cursor ends just past the
      last, and every other cell is unchanged. */
  lemma {:induction false} SequentialPlacement(s: State, lines: seq<string>)
    requires forall k :: 0 <= k < |lines| ==> Emits(lines[k])
    requires s.cursor + |lines| <= |s.mem|
    ensures Run(s, lines).Ok?
    ensures var t := Run(s, lines).value;
      t.cursor == s.cursor + |lines| && |t.mem| == |s.mem| &&
      (forall k :: 0 <= k < |lines| ==> t.mem[s.cursor + k] == Emitted(lines[k])) &&
      (forall a :: 0 <= a < |s.mem| && !(s.cursor <= a < s.cursor + |lines|) ==> t.mem[a] == s.mem[a])
    decreases |lines|
  {
    if lines != [] {
      EmitAtCursor(s, lines[0]);
      var u := State(s.mem[s.cursor := Emitted(lines[0])], s.cursor + 1);
      SequentialPlacement(u, lines[1..]);
      var t := Run(s, lines).value;
      assert t == Run(u, lines[1..]).value;
      forall k | 0 <= k < |lines|
        ensures t.mem[s.cursor + k] == Emitted(lines[k])
      {
        if k > 0 {
          assert lines[1..][k - 1] == lines[k];
        }
      }
    }
  }

  /** From the initial state, at most sixteen emitting lines and no labels
      put the k-th line at address k and leave the rest of the image zero. */
  lemma NoLabelProgram(s: State, lines: seq<string>)
    requires s == Initial()
    requires forall k :: 0 <= k < |lines| ==> Emits(lines[k])
    requires |lines| <= MemorySize
    ensures Run(s, lines).Ok? && Run(s, lines).value.cursor == |lines|
    ensures var mem := Run(s, lines).value.mem;
      |mem| == MemorySize &&
      (forall k :: 0 <= k < |lines| ==> mem[k] == Emitted(lines[k])) &&
      (forall a :: |lines| <= a < MemorySize ==> mem[a] == 0)
  {
    SequentialPlacement(s, lines);
  }

  /** Emitting lines that run past the end of the image fail at the first
      line that would be written at the end, naming that address. */
  lemma {:induction false} OverflowPastEnd(s: State, lines: seq<string>)
    requires forall k :: 0 <= k < |lines| ==> Emits(lines[k])
    requires s.cursor <= |s.mem| < s.cursor + |lines|
    ensures Run(s, lines) == Err(Overflow(lines[|s.mem| - s.cursor], |s.mem|))
    decreases |lines|
  {
    EmitAtCursor(s, lines[0]);
    RunAt(s, lines, 0);
    assert lines[0..] == lines;
    if s.cursor < |s.mem| {
      var u := State(s.mem[s.cursor := Emitted(lines[0])], s.cursor + 1);
      assert Run(s, lines) == Run(u, lines[1..]);
      var rest := lines[1..];
      assert forall k :: 0 <= k < |rest| ==> Emits(rest[k]) by {
        forall k | 0 <= k < |rest| ensures Emits(rest[k]) {
          assert rest[k] == lines[k + 1];
        }
      }
      OverflowPastEnd(u, rest);
      assert rest[|s.mem| - u.cursor] == lines[|s.mem| - s.cursor];
    }
  }

  /** From the initial state, seventeen emitting lines without a label
      overflow at the seventeenth. */
  lemma SeventeenthEmissionOverflows(s: State, lines: seq<string>)
    requires s == Initial()
    requires forall k :: 0 <= k < |lines| ==> Emits(lines[k])
    requires |lines| > MemorySize
    ensures Run(s, lines) == Err(Overflow(lines[16], 16))
  {
    OverflowPastEnd(s, lines);
  }

  /** A label past the end is accepted, and the next emitting line fails. */
  lemma LabelPastEnd(s: State, line: string)
    requires |s.mem| == MemorySize && Emits(line)
    ensures Run(s, ["10:", line]) == Err(Overflow(line, 16))
  {
    assert BeforeFirst("10:", ':') == "10" by {
      assert IndexOf("10:", ':') == 2;
    }
    assert HexValue("10") == 16 by {
      assert "10"[..1] == "1";
      assert "1"[..0] == [];
    }
    var t := State(s.mem, 16);
    assert Step(s, "10:") == Ok(t);
    EmitAtCursor(t, line);
    assert ["10:", line][1..] == [line];
  }

  /** A cell changes only by being written: if a run of lines leaves a cell
      different from where it started, some emitting line was reached with
      the cursor at that cell. */
  lemma {:induction false} ChangedCellWasWritten(s: State, lines: seq<string>, a: nat)
    requires Run(s, lines).Ok? && a < |s.mem|
    requires Run(s, lines).value.mem[a] != s.mem[a]
    ensures exists k :: (0 <= k < |lines| && ':' !in lines[k] &&
      Run(s, lines[..k]).Ok? && Run(s, lines[..k]).value.cursor == a)
    decreases |lines|
  {
    RunAt(s, lines, 0);
    assert lines[0..] == lines;
    var t := Step(s, lines[0]).value;
    if t.mem[a] != s.mem[a] {
      assert ':' !in lines[0] && s.cursor == a;
      assert Run(s, lines[..0]) == Ok(s);
    } else {
      ChangedCellWasWritten(t, lines[1..], a);
      var k :| 0 <= k < |lines[1..]| && ':' !in lines[1..][k] &&
        Run(t, lines[1..][..k]).Ok? && Run(t, lines[1..][..k]).value.cursor == a;
      RunPrefixAfterFirst(s, lines, k);
    }
  }

  /** The state after the first `k + 1` lines is the state after the first
      `k` of the rest, started from where the first line left. */
  lemma RunPrefixAfterFirst(s: State, lines: seq<string>, k: nat)
    requires k < |lines| - 1 && Step(s, lines[0]).Ok?
    ensures lines[k + 1] == lines[1..][k]
    ensures Run(s, lines[..k + 1]) == Run(Step(s, lines[0]).value, lines[1..][..k])
  {
    var rest := lines[1..];
    assert lines[..k + 1] == [lines[0]] + rest[..k];
    RunAppend(s, [lines[0]], rest[..k]);
    RunAt(s, [lines[0]], 0);
    assert [lines[0]][0..] == [lines[0]] && [lines[0]][1..] == [];
  }

  /** So a cell of an assembled image that no line wrote is zero. */
  lemma UnwrittenCellIsZero(prog: string, a: nat)
    requires Image(prog).Ok? && a < MemorySize
    requires forall k :: 0 <= k < |SourceLines(prog)| && ':' !in SourceLines(prog)[k] ==>
      !(Run(Initial(), SourceLines(prog)[..k]).Ok? && Run(Initial(), SourceLines(prog)[..k]).value.cursor == a)
    ensures Image(prog).value[a] == 0
  {
    if Image(prog).value[a] != 0 {
      ChangedCellWasWritten(Initial(), SourceLines(prog), a);
    }
  }

  /** An emitting line overwrites what an earlier line put at the same
      address: after it, the cell holds its byte. */
  lemma LaterWriteWins(s: State, xs: seq<string>, line: string)
    requires Run(s, xs).Ok? && Emits(line)
    requires Run(s, xs).value.cursor < |s.mem|
    ensures Run(s, xs + [line]).Ok?
    ensures Run(s, xs + [line]).value.mem[Run(s, xs).value.cursor] == Emitted(line)
  {
    var t := Run(s, xs).value;
    RunAppend(s, xs, [line]);
    EmitAtCursor(t, line);
  }

  // ------------------------------------------------------------ bytes and rendering

  /** Every literal line (one that is neither a label nor a mnemonic) has at
      most two hex digits. */
  predicate ByteLiterals(lines: seq<string>) {
    forall k :: 0 <= k < |lines| && ':' !in lines[k] && Opcode(lines[k]).None? ==> |lines[k]| <= 2
  }

  predicate AllBytes(mem: seq<nat>) {
    forall a :: 0 <= a < |mem| ==> mem[a] < 256
  }

  /** When every literal is at most two digits, every cell stays a byte. */
  lemma {:induction false} BytesStayBytes(s: State, lines: seq<string>)
    requires Run(s, lines).Ok? && AllBytes(s.mem) && ByteLiterals(lines)
    ensures AllBytes(Run(s, lines).value.mem)
    decreases |lines|
  {
    if lines != [] {
      var line := lines[0];
      var t := Step(s, line).value;
      assert AllBytes(t.mem) by {
        if ':' !in line && Opcode(line).None? {
          HexByte(line);
        }
      }
      assert ByteLiterals(lines[1..]) by {
        forall k | 0 <= k < |lines[1..]| && ':' !in lines[1..][k] && Opcode(lines[1..][k]).None?
          ensures |lines[1..][k]| <= 2
        {
          assert lines[1..][k] == lines[k + 1];
        }
      }
      BytesStayBytes(t, lines[1..]);
    }
  }

  /** Reading rendered object code back: blocks of eight binary digits and a
      newline, each giving one cell. */
  function ParseCells(text: string): Option<seq<nat>>
    decreases |text|
  {
    if text == [] then Some([])
    else if |text| >= 9 && IsBits(text[..8]) && text[8] == '\n' then
      match ParseCells(text[9..])
      case None => None
      case Some(rest) => Some([BitsValue(text[..8])] + rest)
    else None
  }

  /** Rendering is lossless for bytes: the object code of an image is nine
      characters per cell, in address order, and reads back as the image. */
  lemma {:induction false} RenderRoundTrip(mem: seq<nat>)
    requires AllBytes(mem)
    ensures |Render(mem)| == 9 * |mem|
    ensures ParseCells(Render(mem)) == Some(mem)
  {
    if mem != [] {
      assert Cells(mem)[1..] == Cells(mem[1..]);
      var c := Cell(mem[0]);
      CellOfByte(mem[0]);
      RenderRoundTrip(mem[1..]);
      var text := Render(mem);
      assert text == c + Render(mem[1..]);
      assert text[..8] == c[..8];
      assert text[8] == c[8];
      assert text[9..] == Render(mem[1..]);
      assert [mem[0]] + mem[1..] == mem;
    }
  }

  /** Joining strings of `w` characters each puts the k-th at offset `w * k`. */
  lemma {:induction false} ConcatAt(parts: seq<string>, w: nat, k: nat)
    requires forall j :: 0 <= j < |parts| ==> |parts[j]| == w
    requires k < |parts|
    ensures |Concat(parts)| == w * |parts| && w * k + w <= w * |parts|
    ensures Concat(parts)[w * k..w * k + w] == parts[k]
  {
    MulMonotone(w, k + 1, |parts|);
    var rest := parts[1..];
    assert w * |parts| == w + w * |rest|;
    if k == 0 {
      if |parts| > 1 {
        ConcatAt(rest, w, 0);
      }
    } else {
      ConcatAt(rest, w, k - 1);
      var i := w * (k - 1);
      assert w * k == i + w;
      assert Concat(parts)[w..] == Concat(rest);
      assert Concat(parts)[w * k..w * k + w] == Concat(rest)[i..i + w];
    }
  }

  lemma {:induction false} MulMonotone(w: nat, a: nat, b: nat)
    requires a <= b
    ensures w * a <= w * b
    decreases b - a
  {
    if a < b {
      MulMonotone(w, a + 1, b);
    }
  }

  /** The cell at address `a` occupies characters `9a` to `9a + 8` of the
      object code, and its eight digits read as the byte stored there. */
  lemma RenderCellAt(mem: seq<nat>, a: nat)
    requires AllBytes(mem) && a < |mem|
    ensures |Render(mem)| == 9 * |mem|
    ensures Render(mem)[9 * a..9 * a + 9] == Cell(mem[a])
    ensures var digits := Render(mem)[9 * a..9 * a + 8];
      IsBits(digits) && BitsValue(digits) == mem[a]
  {
    var cells := Cells(mem);
    forall j | 0 <= j < |cells|
      ensures |cells[j]| == 9
    {
      CellOfByte(mem[j]);
    }
    ConcatAt(cells, 9, a);
    var text := Render(mem);
    var c := Cell(mem[a]);
    assert text[9 * a..9 * a + 9] == cells[a] == c;
    CellOfByte(mem[a]);
    assert text[9 * a..9 * a + 8] == c[..8];
  }

  /** An assembled program with byte-sized literals is 144 characters of
      object code that read back as its sixteen-cell image. */
  lemma AssembledReadsBack(prog: string)
    requires Image(prog).Ok? && ByteLiterals(SourceLines(prog))
    ensures Assembled(prog).Ok?
    ensures |Assembled(prog).value| == 9 * MemorySize
    ensures ParseCells(Assembled(prog).value) == Some(Image(prog).value)
  {
    BytesStayBytes(Initial(), SourceLines(prog));
    RenderRoundTrip(Image(prog).value);
  }

  /** A dump line for an address of the image is one hex digit, a colon, a
      space and the cell. */
  lemma DumpLineShape(a: nat, cell: string)
    requires a < MemorySize
    ensures DumpLine(a, cell) == [HexChar(a), ':', ' '] + cell
  {
  }

  /** The annotated dump of a byte image is twelve characters per address:
      line `a` sits at offset `12a` and is the dump line of cell `a`. */
  lemma DumpAt(mem: seq<nat>, a: nat)
    requires AllBytes(mem) && |mem| == MemorySize && a < MemorySize
    ensures |Dump(Cells(mem))| == 12 * MemorySize
    ensures Dump(Cells(mem))[12 * a..12 * a + 12] == DumpLine(a, Cell(mem[a]))
  {
    var cells := Cells(mem);
    var lines := seq(|cells|, j requires 0 <= j < |cells| => DumpLine(j, cells[j]));
    forall j | 0 <= j < |lines|
      ensures |lines[j]| == 12
    {
      CellOfByte(mem[j]);
      DumpLineShape(j, cells[j]);
    }
    ConcatAt(lines, 12, a);
  }

  // ------------------------------------------------------------ scenarios

  /** A line already in normal form is left as it is. */
  lemma NormalLineUnchanged(line: string)
    requires ';' !in line && forall k :: 0 <= k < |line| ==> !IsLower(line[k])
    requires line == [] || (!IsSpace(line[0]) && !IsSpace(line[|line| - 1]))
    ensures Normalise(line) == line
  {
    assert TrimStart(line) == line;
    assert TrimEnd(line) == line;
  }

  /** A list of lines already in normal form passes through unchanged. */
  lemma {:induction false} NormalLinesUnchanged(lines: seq<string>)
    requires forall k :: 0 <= k < |lines| ==> |lines[k]| > 0 && Normalise(lines[k]) == lines[k]
    ensures NormaliseAll(lines) == lines
  {
    if lines != [] {
      NormalLinesUnchanged(lines[1..]);
    }
  }

  /** A program whose lines are already normal and not empty is walked
      line by line as written. */
  lemma SourceLinesOfNormalProgram(lines: seq<string>)
    requires |lines| >= 1
    requires forall k :: 0 <= k < |lines| ==>
      |lines[k]| > 0 && '\n' !in lines[k] && Normalise(lines[k]) == lines[k]
    ensures SourceLines(Join(lines, '\n')) == lines
  {
    SplitJoin(lines, '\n');
    NormalLinesUnchanged(lines);
  }

  /** A mnemonic is already a normal line: not empty, without a line break,
      and unchanged by normalising. */
  lemma MnemonicIsNormal(mnemonic: string)
    requires Opcode(mnemonic).Some?
    ensures |mnemonic| > 0 && '\n' !in mnemonic && Normalise(mnemonic) == mnemonic
  {
    MnemonicSpelled(mnemonic);
    NormalLineUnchanged(mnemonic);
  }

  // Scenario: `INR A`, `INR B`, `ADD B`.

  lemma IncIncAddText(prog: string, lines: seq<string>)
    requires prog == "INR A\nINR B\nADD B"
    requires lines == ["INR A", "INR B", "ADD B"]
    ensures Join(lines, '\n') == prog
  {
    var t := lines[1..];
    assert t[1..] == ["ADD B"];
    assert Join(t[1..], '\n') == "ADD B";
    assert Join(t, '\n') == "INR B" + "\n" + "ADD B";
    assert Join(lines, '\n') == "INR A" + "\n" + ("INR B" + "\n" + "ADD B");
  }

  /** The three lines are the table's entries 0, 1 and 6. */
  lemma IncIncAddLines(lines: seq<string>)
    requires lines == ["INR A", "INR B", "ADD B"]
    ensures lines == [Row(0).mnemonic, Row(1).mnemonic, Row(6).mnemonic]
    ensures forall k :: 0 <= k < |lines| ==> Opcode(lines[k]).Some?
    ensures Opcode(lines[0]).value == 0x3C && Opcode(lines[1]).value == 0x04 && Opcode(lines[2]).value == 0x80
  {
    OpcodeOfEntry(0);
    OpcodeOfEntry(1);
    OpcodeOfEntry(6);
  }

  lemma IncIncAddRun(s: State, lines: seq<string>)
    requires s == Initial()
    requires forall k :: 0 <= k < |lines| ==> Opcode(lines[k]).Some?
    requires |lines| == 3
    requires Opcode(lines[0]).value == 0x3C && Opcode(lines[1]).value == 0x04 && Opcode(lines[2]).value == 0x80
    ensures Run(s, lines) == Ok(State([0x3C, 0x04, 0x80] + seq(13, _ => 0), 3))
  {
    forall k | 0 <= k < |lines|
      ensures Emits(lines[k])
    {
      MnemonicIsNotLabelOrLiteral(lines[k]);
    }
    SequentialPlacement(s, lines);
    var mem := Run(s, lines).value.mem;
    assert mem == [0x3C, 0x04, 0x80] + seq(13, _ => 0);
  }

  /** Three instructions without labels fill addresses 0, 1 and 2, and the
      rest of the image stays zero. */
  lemma IncIncAddScenario(prog: string)
    requires prog == "INR A\nINR B\nADD B"
    ensures SourceLines(prog) == ["INR A", "INR B", "ADD B"]
    ensures Image(prog) == Ok([0x3C, 0x04, 0x80] + seq(13, _ => 0))
  {
    var lines := ["INR A", "INR B", "ADD B"];
    IncIncAddText(prog, lines);
    IncIncAddLines(lines);
    forall k | 0 <= k < |lines|
      ensures |lines[k]| > 0 && '\n' !in lines[k] && Normalise(lines[k]) == lines[k]
    {
      MnemonicIsNormal(lines[k]);
    }
    SourceLinesOfNormalProgram(lines);
    IncIncAddRun(Initial(), lines);
  }

  /** The three cells of that program as text, and the dump line for
      address 2. */
  lemma CellOf3C()
    ensures Cell(0x3C) == "00111100\n"
  {
    assert Binary(1) == "1";
    assert Binary(3) == Binary(1) + "1";
    assert Binary(7) == Binary(3) + "1";
    assert Binary(15) == Binary(7) + "1";
    assert Binary(30) == Binary(15) + "0";
    assert Binary(60) == Binary(30) + "0";
    assert Zeros(2) == "00";
  }

  lemma CellOf04()
    ensures Cell(0x04) == "00000100\n"
  {
    assert Binary(1) == "1";
    assert Binary(2) == Binary(1) + "0";
    assert Binary(4) == Binary(2) + "0";
    assert Zeros(5) == "00000";
  }

  lemma CellOf80()
    ensures Cell(0x80) == "10000000\n"
    ensures DumpLine(2, Cell(0x80)) == "2: 10000000\n"
  {
    assert Binary(1) == "1";
    assert Binary(2) == Binary(1) + "0";
    assert Binary(4) == Binary(2) + "0";
    assert Binary(8) == Binary(4) + "0";
    assert Binary(16) == Binary(8) + "0";
    assert Binary(32) == Binary(16) + "0";
    assert Binary(64) == Binary(32) + "0";
    assert Binary(128) == Binary(64) + "0";
    assert ToHex(2) == "2";
  }

  // Scenario: `JMP`, `5`, `5:`, `HLT`.

  lemma JumpText(prog: string, lines: seq<string>)
    requires prog == "JMP\n5\n5:\nHLT"
    requires lines == ["JMP", "5", "5:", "HLT"]
    ensures Join(lines, '\n') == prog
  {
    var t := lines[1..];
    var u := t[1..];
    assert u[1..] == ["HLT"];
    assert Join(u[1..], '\n') == "HLT";
    assert Join(u, '\n') == "5:" + "\n" + "HLT";
    assert Join(t, '\n') == "5" + "\n" + ("5:" + "\n" + "HLT");
    assert Join(lines, '\n') == "JMP" + "\n" + ("5" + "\n" + ("5:" + "\n" + "HLT"));
  }

  // As above, the words are parameters pinned down by `requires`.

  /** The literal `5` is a normal line and the number 5. */
  lemma Five(five: string)
    requires five == "5"
    ensures ':' !in five && Opcode(five) == None && ParseHex(five) == Some(5)
    ensures Normalise(five) == five
  {
    assert HexValue(five) == 5 by {
      assert five[..0] == [];
    }
    HexIsNotMnemonic(five);
    NormalLineUnchanged(five);
  }

  /** The label `5:` is a normal line and names `5`. */
  lemma FiveLabel(mark: string)
    requires mark == "5:"
    ensures ':' in mark && BeforeFirst(mark, ':') == "5"
    ensures Normalise(mark) == mark
  {
    NormalLineUnchanged(mark);
    assert IndexOf(mark, ':') == 1;
  }

  /** `JMP` and `HLT` are the table's entries 35 and 26. */
  lemma JumpAndHalt(jump: string, halt: string)
    requires jump == "JMP" && halt == "HLT"
    ensures Opcode(jump) == Some(0xC3) && Opcode(halt) == Some(0x76)
  {
    assert jump == Row(35).mnemonic && halt == Row(26).mnemonic;
    OpcodeOfEntry(35);
    OpcodeOfEntry(26);
  }

  /** What each of the four lines is: the entries 35 and 26 of the table
      around the literal `5` and the label `5:`. */
  lemma JumpLines(lines: seq<string>)
    requires lines == ["JMP", "5", "5:", "HLT"]
    ensures Opcode(lines[0]) == Some(0xC3) && Opcode(lines[3]) == Some(0x76)
    ensures ':' !in lines[1] && Opcode(lines[1]) == None && ParseHex(lines[1]) == Some(5)
    ensures ':' in lines[2] && BeforeFirst(lines[2], ':') == lines[1]
    ensures Normalise(lines[1]) == lines[1] && Normalise(lines[2]) == lines[2]
  {
    JumpAndHalt(lines[0], lines[3]);
    Five(lines[1]);
    FiveLabel(lines[2]);
  }

  lemma JumpHead(s: State, before: seq<string>)
    requires s == Initial() && |before| == 2
    requires Opcode(before[0]) == Some(0xC3)
    requires ':' !in before[1] && Opcode(before[1]) == None && ParseHex(before[1]) == Some(5)
    ensures Run(s, before) == Ok(State([0xC3, 5] + seq(14, _ => 0), 2))
  {
    MnemonicIsNotLabelOrLiteral(before[0]);
    SequentialPlacement(s, before);
    var mem := Run(s, before).value.mem;
    assert mem == [0xC3, 5] + seq(14, _ => 0);
  }

  lemma JumpTail(t: State, after: seq<string>)
    requires |t.mem| == MemorySize && |after| == 2
    requires ':' in after[0] && ParseHex(BeforeFirst(after[0], ':')) == Some(5)
    requires Opcode(after[1]) == Some(0x76)
    ensures Run(t, after) == Ok(State(t.mem[5 := 0x76], 6))
  {
    LabelMovesCursor(t, after[0]);
    var u := State(t.mem, 5);
    assert Step(t, after[0]) == Ok(u);
    MnemonicIsNotLabelOrLiteral(after[1]);
    EmitAtCursor(u, after[1]);
    RunAt(t, after, 0);
    assert after[0..] == after;
    RunAt(u, after, 1);
    assert after[2..] == [];
  }

  lemma JumpRun(s: State, lines: seq<string>)
    requires s == Initial() && |lines| == 4
    requires Opcode(lines[0]) == Some(0xC3) && Opcode(lines[3]) == Some(0x76)
    requires ':' !in lines[1] && Opcode(lines[1]) == None && ParseHex(lines[1]) == Some(5)
    requires ':' in lines[2] && BeforeFirst(lines[2], ':') == lines[1]
    ensures Run(s, lines) == Ok(State([0xC3, 5, 0, 0, 0, 0x76] + seq(10, _ => 0), 6))
  {
    var before := lines[..2];
    var after := lines[2..];
    assert lines == before + after;
    JumpHead(s, before);
    var t := State([0xC3, 5] + seq(14, _ => 0), 2);
    RunAppend(s, before, after);
    JumpTail(t, after);
    assert t.mem[5 := 0x76] == [0xC3, 5, 0, 0, 0, 0x76] + seq(10, _ => 0);
  }

  /** A jump, its target literal, then a label that moves the cursor to 5:
      the halt lands at address 5 and the cells in between stay zero. */
  lemma JumpScenario(prog: string)
    requires prog == "JMP\n5\n5:\nHLT"
    ensures SourceLines(prog) == ["JMP", "5", "5:", "HLT"]
    ensures Image(prog) == Ok([0xC3, 5, 0, 0, 0, 0x76] + seq(10, _ => 0))
  {
    var lines := ["JMP", "5", "5:", "HLT"];
    JumpText(prog, lines);
    JumpLines(lines);
    forall k | 0 <= k < |lines|
      ensures |lines[k]| > 0 && '\n' !in lines[k] && Normalise(lines[k]) == lines[k]
    {
      if k == 0 || k == 3 {
        MnemonicIsNormal(lines[k]);
      }
    }
    SourceLinesOfNormalProgram(lines);
    JumpRun(Initial(), lines);
  }
}
