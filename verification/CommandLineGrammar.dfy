/** The language of the kernel command line: what blanks, backslashes and either kind of quotation
    mean to the tokenizer of `kernel_cmdline.cpp`. */
module CommandLineGrammar {
  import opened Wrappers
  import opened KernelCommandLine

  /** A character of an argument, as it is or behind a backslash. */
  datatype Unit = Raw(c: char) | Escaped(c: char)

  /** A blank between arguments, a character outside quotations, or a whole quotation. */
  datatype Piece = Blank(c: char) | Bare(unit: Unit) | Quoted(delimiter: char, units: seq<Unit>)

  /** Blank, line ends, tabs, form feed. */
  predicate IsBlank(c: char) { c as int in {0x20, 0x09, 0x0A, 0x0B, 0x0C, 0x0D} }

  predicate WellFormed(piece: Piece) {
    match piece
    case Blank(c) => IsBlank(c)
    case Bare(Raw(c)) => !IsBlank(c) && c !in "\\\'\""
    case Bare(Escaped(_)) => true
    case Quoted(delimiter, units) =>
      delimiter in "\'\"" && forall u :: u in units && u.Raw? ==> u.c != delimiter && u.c != '\\'
  }

  function UnitText(u: Unit): string { if u.Raw? then [u.c] else "\\" + [u.c] }

  function UnitsText(units: seq<Unit>): string {
    if units == [] then [] else UnitsText(units[..|units| - 1]) + UnitText(units[|units| - 1])
  }

  function UnitsMeaning(units: seq<Unit>): string {
    if units == [] then [] else UnitsMeaning(units[..|units| - 1]) + [units[|units| - 1].c]
  }

  function PieceText(piece: Piece): string {
    match piece
    case Blank(c) => [c]
    case Bare(u) => UnitText(u)
    case Quoted(delimiter, units) => [delimiter] + UnitsText(units) + [delimiter]
  }

  function PieceMeaning(piece: Piece): string {
    match piece
    case Blank(_) => []
    case Bare(u) => [u.c]
    case Quoted(_, units) => UnitsMeaning(units)
  }

  function Text(pieces: seq<Piece>): string {
    if pieces == [] then [] else Text(pieces[..|pieces| - 1]) + PieceText(pieces[|pieces| - 1])
  }

  ghost predicate Spells(pieces: seq<Piece>, text: string) {
    Text(pieces) == text && forall p :: p in pieces ==> WellFormed(p)
  }

  /** The argument begun behind the last blank. */
  function Last(pieces: seq<Piece>): string {
    if pieces == [] then []
    else
      var n := |pieces| - 1;
      if pieces[n].Blank? then [] else Last(pieces[..n]) + PieceMeaning(pieces[n])
  }

  function NonEmpty(argument: string): seq<string> { if argument == [] then [] else [argument] }

  /** The arguments before the last blank. */
  function Ended(pieces: seq<Piece>): seq<string> {
    if pieces == [] then []
    else
      var n := |pieces| - 1;
      Ended(pieces[..n]) + if pieces[n].Blank? then NonEmpty(Last(pieces[..n])) else []
  }

  /** What the pieces mean: the texts between blanks that are not empty. */
  function Arguments(pieces: seq<Piece>): seq<string> { Ended(pieces) + NonEmpty(Last(pieces)) }

  lemma OneCharacter(scan: Scan, c: char)
    ensures scan.Run([c]) == scan.Next(c)
  {
    assert [c][1..] == [];
  }

  lemma UnitRun(scan: Scan, u: Unit)
    requires !scan.escaped
    requires u.Raw? ==>
      u.c != '\\' && if scan.quote.Some? then u.c != scan.quote.value else !IsBlank(u.c) && u.c !in "\'\""
    ensures scan.Run(UnitText(u)) == scan.(current := scan.current + [u.c])
  {
    if u.Raw? {
      OneCharacter(scan, u.c);
    } else {
      RunAppend(scan, "\\", [u.c]);
      OneCharacter(scan, '\\');
      OneCharacter(scan.Next('\\'), u.c);
    }
  }

  lemma {:induction false} UnitsRun(scan: Scan, units: seq<Unit>)
    requires !scan.escaped && scan.quote.Some?
    requires forall u :: u in units && u.Raw? ==> u.c != scan.quote.value && u.c != '\\'
    ensures scan.Run(UnitsText(units)) == scan.(current := scan.current + UnitsMeaning(units))
  {
    if units == [] {
      assert scan.current + [] == scan.current;
    } else {
      var n := |units| - 1;
      UnitsRun(scan, units[..n]);
      RunAppend(scan, UnitsText(units[..n]), UnitText(units[n]));
      UnitRun(scan.(current := scan.current + UnitsMeaning(units[..n])), units[n]);
      assert scan.current + UnitsMeaning(units[..n]) + [units[n].c]
          == scan.current + (UnitsMeaning(units[..n]) + [units[n].c]);
    }
  }

  lemma QuotedRun(scan: Scan, delimiter: char, units: seq<Unit>)
    requires !scan.escaped && scan.quote.None? && WellFormed(Quoted(delimiter, units))
    ensures scan.Run([delimiter] + UnitsText(units) + [delimiter]) ==
      scan.(current := scan.current + UnitsMeaning(units))
  {
    var open := scan.(quote := Some(delimiter));
    RunAppend(scan, [delimiter] + UnitsText(units), [delimiter]);
    RunAppend(scan, [delimiter], UnitsText(units));
    OneCharacter(scan, delimiter);
    UnitsRun(open, units);
    OneCharacter(open.(current := open.current + UnitsMeaning(units)), delimiter);
  }

  lemma PieceRun(scan: Scan, piece: Piece)
    requires !scan.escaped && scan.quote.None? && WellFormed(piece)
    ensures scan.Run(PieceText(piece)) ==
      if piece.Blank? then scan.Flush() else scan.(current := scan.current + PieceMeaning(piece))
  {
    match piece
    case Blank(c) => OneCharacter(scan, c);
    case Bare(u) => UnitRun(scan, u);
    case Quoted(delimiter, units) => QuotedRun(scan, delimiter, units);
  }

  /** The tokenizer gathers what the pieces mean. */
  lemma {:induction false} PiecesRun(pieces: seq<Piece>)
    requires forall p :: p in pieces ==> WellFormed(p)
    ensures START.Run(Text(pieces)) == Scan(Ended(pieces), Last(pieces), false, None)
  {
    if pieces != [] {
      var n := |pieces| - 1;
      PiecesRun(pieces[..n]);
      RunAppend(START, Text(pieces[..n]), PieceText(pieces[n]));
      PieceRun(Scan(Ended(pieces[..n]), Last(pieces[..n]), false, None), pieces[n]);
      assert Ended(pieces[..n]) + [] == Ended(pieces[..n]);
    }
  }

  /** A quotation that is not closed yet. */
  datatype Quotation = Quotation(delimiter: char, units: seq<Unit>)

  function Tail(quotation: Option<Quotation>, escaped: bool): string {
    (if quotation.None? then "" else [quotation.value.delimiter] + UnitsText(quotation.value.units))
    + (if escaped then "\\" else "")
  }

  ghost predicate AllFormed(pieces: seq<Piece>, quotation: Option<Quotation>) {
    && (forall p :: p in pieces ==> WellFormed(p))
    && (quotation.Some? ==> WellFormed(Quoted(quotation.value.delimiter, quotation.value.units)))
  }

  /** A text read so far: pieces, then perhaps an open quotation, then perhaps a backslash. */
  ghost predicate Reads(text: string, pieces: seq<Piece>, quotation: Option<Quotation>, escaped: bool) {
    && AllFormed(pieces, quotation) && text == Text(pieces) + Tail(quotation, escaped)
    && START.Run(text).escaped == escaped
    && START.Run(text).quote == if quotation.None? then None else Some(quotation.value.delimiter)
  }

  lemma RunOn(front: string, c: char)
    ensures START.Run(front + [c]) == START.Run(front).Next(c)
  {
    RunAppend(START, front, [c]);
    OneCharacter(START.Run(front), c);
  }

  /** A character that ends a piece. */
  lemma PieceEnds(front: string, c: char, pieces: seq<Piece>, quotation: Option<Quotation>, escaped: bool, piece: Piece)
    requires Reads(front, pieces, quotation, escaped) && WellFormed(piece)
    requires PieceText(piece) == Tail(quotation, escaped) + [c]
    requires !START.Run(front).Next(c).escaped && START.Run(front).Next(c).quote.None?
    ensures Reads(front + [c], pieces + [piece], None, false)
  {
    RunOn(front, c);
    assert (pieces + [piece])[..|pieces|] == pieces;
    assert front + [c] == Text(pieces) + (Tail(quotation, escaped) + [c]);
    assert Text(pieces + [piece]) + ("" + "") == Text(pieces + [piece]);
  }

  /** A character that does not. */
  lemma PieceGoesOn(front: string, c: char, pieces: seq<Piece>, quotation: Option<Quotation>, escaped: bool,
                    next: Option<Quotation>, backslash: bool)
    requires Reads(front, pieces, quotation, escaped) && AllFormed([], next)
    requires Tail(next, backslash) == Tail(quotation, escaped) + [c]
    requires START.Run(front).Next(c).escaped == backslash
    requires START.Run(front).Next(c).quote == if next.None? then None else Some(next.value.delimiter)
    ensures Reads(front + [c], pieces, next, backslash)
  {
    RunOn(front, c);
    assert front + [c] == Text(pieces) + (Tail(quotation, escaped) + [c]);
  }

  /** One more character outside quotations. */
  lemma ReadOutside(front: string, c: char, pieces: seq<Piece>, escaped: bool)
    returns (more: seq<Piece>, quotation: Option<Quotation>, backslash: bool)
    requires Reads(front, pieces, None, escaped)
    ensures Reads(front + [c], more, quotation, backslash)
  {
    more, quotation, backslash := pieces, None, false;
    if !escaped && c == '\\' {
      backslash := true;
      PieceGoesOn(front, c, pieces, None, escaped, None, true);
    } else if !escaped && (c == '\'' || c == '\"') {
      quotation := Some(Quotation(c, []));
      PieceGoesOn(front, c, pieces, None, escaped, quotation, false);
    } else {
      var piece := if escaped then Bare(Escaped(c)) else if IsSpace(c) then Blank(c) else Bare(Raw(c));
      more := pieces + [piece];
      PieceEnds(front, c, pieces, None, escaped, piece);
    }
  }

  lemma UnitEnds(units: seq<Unit>, delimiter: char, c: char, escaped: bool)
    ensures
      var u := if escaped then Escaped(c) else Raw(c);
      Tail(Some(Quotation(delimiter, units + [u])), false) == Tail(Some(Quotation(delimiter, units)), escaped) + [c]
  {
    var u := if escaped then Escaped(c) else Raw(c);
    assert (units + [u])[..|units|] == units;
    assert UnitText(u) == (if escaped then "\\" else "") + [c];
  }

  /** One more character inside a quotation. */
  lemma ReadInside(front: string, c: char, pieces: seq<Piece>, open: Quotation, escaped: bool)
    returns (more: seq<Piece>, quotation: Option<Quotation>, backslash: bool)
    requires Reads(front, pieces, Some(open), escaped)
    ensures Reads(front + [c], more, quotation, backslash)
  {
    more, quotation, backslash := pieces, Some(open), false;
    if !escaped && c == '\\' {
      backslash := true;
      PieceGoesOn(front, c, pieces, Some(open), escaped, Some(open), true);
    } else if !escaped && c == open.delimiter {
      more, quotation := pieces + [Quoted(c, open.units)], None;
      assert Tail(Some(open), false) == [c] + UnitsText(open.units);
      PieceEnds(front, c, pieces, Some(open), escaped, Quoted(c, open.units));
    } else {
      UnitEnds(open.units, open.delimiter, c, escaped);
      quotation := Some(open.(units := open.units + [if escaped then Escaped(c) else Raw(c)]));
      PieceGoesOn(front, c, pieces, Some(open), escaped, quotation, false);
    }
  }

  lemma {:induction false} ReadText(text: string)
    returns (pieces: seq<Piece>, quotation: Option<Quotation>, escaped: bool)
    ensures Reads(text, pieces, quotation, escaped)
    decreases |text|
  {
    pieces, quotation, escaped := [], None, false;
    if text != [] {
      var n := |text| - 1;
      assert text == text[..n] + [text[n]];
      pieces, quotation, escaped := ReadText(text[..n]);
      if quotation.None? {
        pieces, quotation, escaped := ReadOutside(text[..n], text[n], pieces, escaped);
      } else {
        pieces, quotation, escaped := ReadInside(text[..n], text[n], pieces, quotation.value, escaped);
      }
    }
  }

  /** A text is a command line exactly when it is made of such pieces, and then it has the arguments
      that they mean, however it is taken apart. */
  lemma ParsedByPieces(text: string)
    ensures Parsed(text).Some? <==> exists pieces :: Spells(pieces, text)
    ensures forall pieces :: Spells(pieces, text) ==> Parsed(text) == Some(Arguments(pieces))
  {
    forall pieces | Spells(pieces, text) ensures Parsed(text) == Some(Arguments(pieces)) {
      PiecesRun(pieces);
      assert Ended(pieces) + [] == Ended(pieces);
    }
    var pieces, quotation, escaped := ReadText(text);
    if Parsed(text).Some? {
      assert Text(pieces) + ("" + "") == Text(pieces);
      assert Spells(pieces, text);
    }
  }
}
