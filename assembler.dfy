/** The single-pass assembler: source text is cut into normalised lines, each
    line is a label (which moves the address cursor), a mnemonic or a hex
    literal (each of which fills the cell at the cursor and advances it), and
    the sixteen cells of the memory image are rendered as binary text. */
module Assembler {
  import opened Options
  import opened Text
  import opened Numerals
  import opened Opcodes

  /** The number of cells in the memory image. */
  const MemorySize: nat := 16

  // ------------------------------------------------------------ source lines

  /** One raw line made ready for lookup: the comment from the first `;` on is
      dropped, surrounding whitespace is trimmed, and letters are upper-cased. */
  function Normalise(raw: string): string {
    Upper(Strip(BeforeFirst(raw, ';')))
  }

  /** The normalised lines, in order, of the raw lines that are not empty.
      The emptiness test is on the raw line: a line of only blanks or only a
      comment is kept, and normalises to the empty string. */
  function NormaliseAll(raws: seq<string>): (lines: seq<string>)
    ensures |lines| <= |raws|
  {
    if raws == [] then []
    else (if |raws[0]| > 0 then [Normalise(raws[0])] else []) + NormaliseAll(raws[1..])
  }

  /** The lines the assembler walks through. */
  function SourceLines(prog: string): seq<string> {
    NormaliseAll(Split(prog, '\n'))
  }

  // ------------------------------------------------------------ errors and state

  /** The ways assembly stops. Each carries the normalised line at fault. */
  datatype Failure =
    | BadLabel(line: string)               // the text before `:` is not a hex number
    | BadToken(line: string)               // neither a mnemonic nor a hex number
    | Overflow(line: string, address: nat) // a cell would be written at or past the end

  datatype Result<T> = Ok(value: T) | Err(failure: Failure)

  /** The memory image and the address cursor between two lines. */
  datatype State = State(mem: seq<nat>, cursor: nat)

  /** Sixteen cells of zero, cursor at address 0. */
  function Initial(): (s: State)
    ensures |s.mem| == MemorySize && s.cursor == 0
    ensures forall a :: 0 <= a < MemorySize ==> s.mem[a] == 0
  {
    State(seq(MemorySize, _ => 0), 0)
  }

  // ------------------------------------------------------------ one line

  /** What a normalised line is, tried in the source's order: anything with a
      colon is a label, then the instruction table is consulted, and whatever
      is left is taken for a literal. */
  datatype Kind = Label(address: string) | Instruction(opcode: nat) | Literal(text: string)

  function Classify(line: string): (k: Kind)
    ensures k.Label? <==> ':' in line
    ensures k.Instruction? <==> ':' !in line && Opcode(line).Some?
    ensures k.Label? ==> k.address == BeforeFirst(line, ':')
    ensures k.Instruction? ==> k.opcode == Opcode(line).value
    ensures k.Literal? ==> k.text == line
  {
    if ':' in line then Label(BeforeFirst(line, ':'))
    else match Opcode(line)
      case Some(op) => Instruction(op)
      case None => Literal(line)
  }

  /** Fill the cell at the cursor with `value` and move the cursor on; a
      cursor at or past the end of the image is an error, not a wrap-around. */
  function Emit(s: State, line: string, value: nat): (r: Result<State>)
    ensures r.Ok? <==> s.cursor < |s.mem|
    ensures r.Err? ==> r.failure == Overflow(line, s.cursor)
    ensures r.Ok? ==> |r.value.mem| == |s.mem| && r.value.cursor == s.cursor + 1
    ensures r.Ok? ==> r.value.mem[s.cursor] == value
    ensures r.Ok? ==> forall a :: 0 <= a < |s.mem| && a != s.cursor ==> r.value.mem[a] == s.mem[a]
  {
    if s.cursor < |s.mem| then Ok(State(s.mem[s.cursor := value], s.cursor + 1))
    else Err(Overflow(line, s.cursor))
  }

  /** The effect of one normalised line. A literal is read before the cell is
      addressed, so a bad literal is reported as such even past the end. */
  function Step(s: State, line: string): (r: Result<State>)
    ensures r.Ok? ==> |r.value.mem| == |s.mem|
    ensures ':' in line ==> r.Ok? ==> r.value.mem == s.mem
    ensures ':' !in line ==> r.Ok? ==>
      s.cursor < |s.mem| && r.value.cursor == s.cursor + 1 &&
      forall a :: 0 <= a < |s.mem| && a != s.cursor ==> r.value.mem[a] == s.mem[a]
  {
    match Classify(line)
    case Label(text) =>
      (match ParseHex(text)
       case None => Err(BadLabel(line))
       case Some(address) => Ok(State(s.mem, address)))
    case Instruction(op) =>
      Emit(s, line, op)
    case Literal(text) =>
      match ParseHex(text)
      case None => Err(BadToken(line))
      case Some(value) => Emit(s, line, value)
  }

  // ------------------------------------------------------------ the whole pass

  /** The lines applied in order from state `s`; the first failure stops the
      pass and is the result. */
  function Run(s: State, lines: seq<string>): (r: Result<State>)
    ensures r.Ok? ==> |r.value.mem| == |s.mem|
    decreases |lines|
  {
    if lines == [] then Ok(s)
    else match Step(s, lines[0])
      case Err(f) => Err(f)
      case Ok(t) => Run(t, lines[1..])
  }

  /** The memory image a program assembles to. */
  function Image(prog: string): (r: Result<seq<nat>>)
    ensures r.Ok? ==> |r.value| == MemorySize
  {
    match Run(Initial(), SourceLines(prog))
    case Err(f) => Err(f)
    case Ok(s) => Ok(s.mem)
  }

  // ------------------------------------------------------------ rendering

  /** `''.join(parts)`. */
  function Concat(parts: seq<string>): string {
    if parts == [] then [] else parts[0] + Concat(parts[1..])
  }

  /** Each cell rendered, in address order. */
  function Cells(mem: seq<nat>): (cells: seq<string>)
    ensures |cells| == |mem| && forall a :: 0 <= a < |mem| ==> cells[a] == Cell(mem[a])
  {
    seq(|mem|, a requires 0 <= a < |mem| => Cell(mem[a]))
  }

  /** The object code text: the rendered cells one after another. */
  function Render(mem: seq<nat>): string {
    Concat(Cells(mem))
  }

  /** What `assemble` returns for a program. */
  function Assembled(prog: string): Result<string> {
    match Image(prog)
    case Err(f) => Err(f)
    case Ok(mem) => Ok(Render(mem))
  }

  /** One line of the annotated dump: the address in lower-case hex without
      a prefix, a colon and a space, then the rendered cell. */
  function DumpLine(address: nat, cell: string): string {
    ToHex(address) + ": " + cell
  }

  /** The annotated dump of a list of rendered cells, in address order. */
  function Dump(cells: seq<string>): string {
    Concat(seq(|cells|, a requires 0 <= a < |cells| => DumpLine(a, cells[a])))
  }

  /** One line of the pass taken from the middle of the list. */
  lemma RunAt(s: State, lines: seq<string>, k: nat)
    requires k < |lines|
    ensures Run(s, lines[k..]) ==
      match Step(s, lines[k])
      case Err(f) => Err(f)
      case Ok(t) => Run(t, lines[k + 1..])
  {
    assert lines[k..][1..] == lines[k + 1..];
  }

  lemma ZeroCell()
    ensures Cell(0) == "00000000\n"
  {
    assert Binary(0) == "0";
    assert Zeros(7) == "0000000";
  }

  /** A line that fails stops the pass with its failure. */
  lemma RunStops(s: State, lines: seq<string>, k: nat, f: Failure)
    requires k < |lines| && Step(s, lines[k]) == Err(f)
    ensures Run(s, lines[k..]) == Err(f)
  {
    RunAt(s, lines, k);
  }

  /** A line that succeeds hands its state on to the rest of the pass. */
  lemma RunGoesOn(s: State, lines: seq<string>, k: nat, t: State)
    requires k < |lines| && Step(s, lines[k]) == Ok(t)
    ensures Run(s, lines[k..]) == Run(t, lines[k + 1..])
  {
    RunAt(s, lines, k);
  }

  // ------------------------------------------------------------ the assembler

  /** One line of the assembler's loop: a label moves the cursor, a mnemonic
      or a literal writes its rendered cell at the cursor into `obj` and
      moves the cursor on. The new cursor, or the failure, is the one `Step`
      gives, and `obj` keeps rendering the new image. */
  method AssembleLine(obj: array<string>, ghost mem: seq<nat>, cursor: nat, line: string)
    returns (r: Result<nat>, ghost next: seq<nat>)
    requires obj.Length == |mem| == MemorySize
    requires forall a :: 0 <= a < MemorySize ==> obj[a] == Cell(mem[a])
    modifies obj
    ensures r.Err? ==> Step(State(mem, cursor), line) == Err(r.failure)
    ensures r.Ok? ==> Step(State(mem, cursor), line) == Ok(State(next, r.value))
    ensures |next| == MemorySize && forall a :: 0 <= a < MemorySize ==> obj[a] == Cell(next[a])
    ensures r.Err? ==> next == mem && obj[..] == old(obj[..])
  {
    next := mem;
    if ':' in line {
      var address := ParseHex(BeforeFirst(line, ':'));
      if address.None? {
        return Err(BadLabel(line)), next;
      }
      return Ok(address.value), next;
    }
    var value: nat;
    var opcode := Opcode(line);
    if opcode.Some? {
      value := opcode.value;
    } else {
      var literal := ParseHex(line);
      if literal.None? {
        return Err(BadToken(line)), next;
      }
      value := literal.value;
    }
    if cursor >= MemorySize {
      return Err(Overflow(line, cursor)), next;
    }
    obj[cursor] := Cell(value);
    next := mem[cursor := value];
    return Ok(cursor + 1), next;
  }

  /** The assembler: walks the normalised lines with an address cursor,
      writing rendered cells into a sixteen-cell buffer, and returns the
      cells joined. It stops at the first failure. */
  method Assemble(prog: string) returns (r: Result<string>)
    ensures r == Assembled(prog)
  {
    var lines := SourceLines(prog);
    var i: nat := 0;
    ZeroCell();
    var obj := new string[MemorySize](_ => "00000000\n");
    ghost var mem: seq<nat> := Initial().mem;
    for k := 0 to |lines|
      invariant |mem| == MemorySize
      invariant forall a :: 0 <= a < MemorySize ==> obj[a] == Cell(mem[a])
      invariant Run(Initial(), lines) == Run(State(mem, i), lines[k..])
    {
      ghost var before := mem;
      var step;
      step, mem := AssembleLine(obj, before, i, lines[k]);
      if step.Err? {
        RunStops(State(before, i), lines, k, step.failure);
        return Err(step.failure);
      }
      RunGoesOn(State(before, i), lines, k, State(mem, step.value));
      i := step.value;
    }
    assert obj[..] == Cells(mem);
    r := Ok(Concat(obj[..]));
  }
}
