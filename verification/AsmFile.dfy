/** Reading one assembly listing: which section every line belongs to, where every local label is defined,
    and the canonical bodies that are compared. */
module AsmFile {
  import opened Protocol
  import opened Decimal
  import opened AsmText
  import opened AsmMarkers
  import opened AsmContent

  // ---------------------------------------------------------------- lines

  predicate IsSpace(c: char) {
    || '\t' <= c <= '\r' || '\U{1c}' <= c <= ' ' || c == '\U{85}' || c == '\U{a0}' || c == '\U{1680}'
    || '\U{2000}' <= c <= '\U{200a}' || c == '\U{2028}' || c == '\U{2029}' || c == '\U{202f}'
    || c == '\U{205f}' || c == '\U{3000}'
  }

  function TrimLeft(s: string): string {
    if s != [] && IsSpace(s[0]) then TrimLeft(s[1..]) else s
  }

  function TrimRight(s: string): string {
    if s != [] && IsSpace(Last(s)) then TrimRight(s[..|s| - 1]) else s
  }

  function Strip(s: string): string { TrimRight(TrimLeft(s)) }

  predicate WordChar(c: char) { IsLetter(c) || IsDigit(c) || c == '_' }

  predicate IsFileDirective(line: string) {
    var s := TrimLeft(line);
    StartsWith(s, ".file") && (|s| > 5 ==> !WordChar(s[5]))
  }

  predicate NameChar(c: char) { c != '"' && c != ',' && !IsSpace(c) }

  function NameLength(s: string): (n: nat)
    ensures n <= |s| && (forall i | 0 <= i < n :: NameChar(s[i]))
  {
    if s == [] || !NameChar(s[0]) then 0 else 1 + NameLength(s[1..])
  }

  function WithoutQuote(s: string): string {
    if s != [] && s[0] == '"' then s[1..] else s
  }

  /** What a line of the listing is. */
  datatype Kind =
    | FileDirective
    | SectionStart(name: string, attrs: string)
    | BareSection
    | Skipped
    | ContentLine(text: string)

  function SectionDirective(line: string): (r: Option<Kind>)
    ensures r.Some? ==> r.value.SectionStart? && r.value.name != [] && '"' !in r.value.name
  {
    if !StartsWith(line, "\t.section\t") then None
    else
      var rest := WithoutQuote(line[10..]);
      var n := NameLength(rest);
      if n == 0 then None else Some(SectionStart(rest[..n], WithoutQuote(rest[n..])))
  }

  function Classify(line: string): Kind {
    var s := Strip(line);
    if IsFileDirective(line) then FileDirective
    else if SectionDirective(line).Some? then SectionDirective(line).value
    else if s == ".text" || s == ".data" || s == ".bss" then BareSection
    else if s == [] || StartsWith(s, "#") || StartsWith(s, ".cfi_") then Skipped
    else ContentLine(s)
  }

  // ---------------------------------------------------------------- attributing lines to sections

  datatype Section = Section(name: string, attrs: string, lines: seq<string>)

  datatype Scan = Scan(closed: seq<Section>, current: Option<Section>, untrusted: bool)

  function Sections(s: Scan): seq<Section> { s.closed + if s.current.Some? then [s.current.value] else [] }

  function ScanLine(s: Scan, line: string): Scan {
    match Classify(line)
    case FileDirective => s
    case SectionStart(name, attrs) => Scan(Sections(s), Some(Section(name, attrs, [])), s.untrusted)
    case BareSection => Scan(Sections(s), None, true)
    case Skipped => s
    case ContentLine(text) =>
      if s.current.None? then s.(untrusted := true)
      else s.(current := Some(s.current.value.(lines := s.current.value.lines + [text])))
  }

  function ScanFile(lines: seq<string>): Scan {
    if lines == [] then Scan([], None, false) else ScanLine(ScanFile(lines[..|lines| - 1]), Last(lines))
  }

  method ReadSections(lines: seq<string>) returns (sections: seq<Section>, untrusted: bool)
    ensures sections == Sections(ScanFile(lines)) && untrusted == ScanFile(lines).untrusted
  {
    sections, untrusted := [], false;
    var name: Option<string>, attrs, body: seq<string> := None, "", [];
    for i := 0 to |lines|
      invariant ScanFile(lines[..i])
                == Scan(sections, if name.Some? then Some(Section(name.value, attrs, body)) else None, untrusted)
    {
      assert lines[..i + 1][..i] == lines[..i];
      match Classify(lines[i]) {
        case FileDirective =>
        case SectionStart(n, a) =>
          if name.Some? {
            sections := sections + [Section(name.value, attrs, body)];
          }
          name, attrs, body := Some(n), a, [];
        case BareSection =>
          if name.Some? {
            sections := sections + [Section(name.value, attrs, body)];
          }
          name, attrs, body := None, "", [];
          untrusted := true;
        case Skipped =>
        case ContentLine(text) =>
          if name.None? {
            untrusted := true;
          } else {
            body := body + [text];
          }
      }
    }
    assert lines[..|lines|] == lines;
    if name.Some? {
      sections := sections + [Section(name.value, attrs, body)];
    }
  }

  /** The content lines of a listing, in order. */
  function ContentLines(lines: seq<string>): seq<string> {
    if lines == [] then []
    else
      ContentLines(lines[..|lines| - 1])
      + match Classify(Last(lines)) case ContentLine(text) => [text] case _ => []
  }

  /** The section directives of a listing, in order. */
  function SectionStarts(lines: seq<string>): seq<Kind> {
    if lines == [] then []
    else
      SectionStarts(lines[..|lines| - 1])
      + match Classify(Last(lines)) case SectionStart(n, a) => [SectionStart(n, a)] case _ => []
  }

  function LinesOf(sections: seq<Section>): seq<string> {
    if sections == [] then [] else LinesOf(sections[..|sections| - 1]) + Last(sections).lines
  }

  function Starts(sections: seq<Section>): seq<Kind> {
    seq(|sections|, i requires 0 <= i < |sections| => SectionStart(sections[i].name, sections[i].attrs))
  }

  predicate HasBareSection(lines: seq<string>) {
    exists i :: 0 <= i < |lines| && Classify(lines[i]).BareSection?
  }

  lemma LinesOfCurrent(closed: seq<Section>, s: Section)
    ensures LinesOf(closed + [s]) == LinesOf(closed) + s.lines
  {
    assert (closed + [s])[..|closed|] == closed;
  }

  lemma ScanLineKeepsLines(s: Scan, line: string)
    ensures LinesOf(Sections(ScanLine(s, line)))
            == LinesOf(Sections(s)) + match Classify(line)
                case ContentLine(text) => (if s.current.Some? then [text] else []) case _ => []
  {
    match Classify(line) {
      case SectionStart(n, a) =>
        LinesOfCurrent(Sections(s), Section(n, a, []));
      case ContentLine(text) =>
        if s.current.Some? {
          LinesOfCurrent(s.closed, s.current.value);
          LinesOfCurrent(s.closed, s.current.value.(lines := s.current.value.lines + [text]));
        }
      case BareSection =>
        assert Sections(Scan(Sections(s), None, true)) == Sections(s);
      case _ =>
    }
  }

  lemma ScanLineKeepsStarts(s: Scan, line: string)
    ensures Starts(Sections(ScanLine(s, line)))
            == Starts(Sections(s)) + match Classify(line) case SectionStart(n, a) => [SectionStart(n, a)] case _ => []
  {
  }

  /** No content line is lost or moved silently: every section directive opens one section, sections keep
      content lines in order, and the listing is called untrusted exactly when it has a bare section
      directive or some content line belongs to no section. */
  lemma {:induction false} NoLineIsLost(lines: seq<string>)
    ensures Starts(Sections(ScanFile(lines))) == SectionStarts(lines)
    ensures |LinesOf(Sections(ScanFile(lines)))| <= |ContentLines(lines)|
    ensures |LinesOf(Sections(ScanFile(lines)))| == |ContentLines(lines)| ==>
              LinesOf(Sections(ScanFile(lines))) == ContentLines(lines)
    ensures ScanFile(lines).untrusted <==>
              HasBareSection(lines) || LinesOf(Sections(ScanFile(lines))) != ContentLines(lines)
  {
    if lines != [] {
      var front := lines[..|lines| - 1];
      NoLineIsLost(front);
      BareInFront(lines);
      ScanLineKeepsLines(ScanFile(front), Last(lines));
      ScanLineKeepsStarts(ScanFile(front), Last(lines));
    }
  }

  lemma BareInFront(lines: seq<string>)
    requires lines != []
    ensures HasBareSection(lines) <==> HasBareSection(lines[..|lines| - 1]) || Classify(Last(lines)).BareSection?
  {
    var front := lines[..|lines| - 1];
    assert forall i | 0 <= i < |front| :: front[i] == lines[i];
    if Classify(Last(lines)).BareSection? {
      assert Classify(lines[|lines| - 1]).BareSection?;
    }
  }

  /** Section names never hold a quote, a comma or a blank. */
  predicate ProperNames(sections: seq<Section>) {
    forall i | 0 <= i < |sections| :: '"' !in sections[i].name
  }

  lemma {:induction false} ScannedNames(lines: seq<string>)
    ensures ProperNames(Sections(ScanFile(lines)))
  {
    if lines != [] {
      ScannedNames(lines[..|lines| - 1]);
      var s, t := Sections(ScanFile(lines[..|lines| - 1])), Sections(ScanFile(lines));
      ScanLineKeepsStarts(ScanFile(lines[..|lines| - 1]), Last(lines));
      forall i | 0 <= i < |t| ensures '"' !in t[i].name {
        assert Starts(t)[i] == SectionStart(t[i].name, t[i].attrs);
        assert i < |s| ==> Starts(t)[i] == Starts(s)[i] == SectionStart(s[i].name, s[i].attrs);
      }
    }
  }

  // ---------------------------------------------------------------- sections by name and occurrence

  function Canon(s: Section): string { EraseAll(s.name) }

  /** How many of the sections have this canonical name. */
  function Count(sections: seq<Section>, canon: string): nat {
    if sections == [] then 0
    else Count(sections[..|sections| - 1], canon) + if Canon(Last(sections)) == canon then 1 else 0
  }

  function Occurrence(sections: seq<Section>, i: nat): nat
    requires i < |sections|
  {
    Count(sections[..i], Canon(sections[i]))
  }

  function Key(sections: seq<Section>, i: nat): string
    requires i < |sections|
  {
    SectionKey(Canon(sections[i]), Occurrence(sections, i))
  }

  // ---------------------------------------------------------------- label definitions

  datatype Definition = Definition(owner: nat, key: string, ordinal: nat)

  type Table = map<string, Definition>

  datatype LabelError = Duplicate(token: string) | Undefined(token: string)

  datatype Numbering = Numbering(table: Table, ordinal: nat)

  function DefineLine(n: Numbering, owner: nat, key: string, line: string): Result<Numbering, LabelError> {
    match DefinedLabel(line)
    case None => Ok(n)
    case Some(token) =>
      if token in n.table then Err(Duplicate(token))
      else Ok(Numbering(n.table[token := Definition(owner, key, n.ordinal)], n.ordinal + 1))
  }

  function DefineLines(table: Table, owner: nat, key: string, lines: seq<string>): Result<Numbering, LabelError> {
    if lines == [] then Ok(Numbering(table, 0))
    else
      match DefineLines(table, owner, key, lines[..|lines| - 1])
      case Err(e) => Err(e)
      case Ok(n) => DefineLine(n, owner, key, Last(lines))
  }

  /** The definitions in the first n sections. */
  function DefineSections(sections: seq<Section>, n: nat): Result<Table, LabelError>
    requires n <= |sections|
  {
    if n == 0 then Ok(map[])
    else
      match DefineSections(sections, n - 1)
      case Err(e) => Err(e)
      case Ok(table) =>
        match DefineLines(table, n - 1, Key(sections, n - 1), sections[n - 1].lines)
        case Err(e) => Err(e)
        case Ok(numbering) => Ok(numbering.table)
  }

  method NumberSection(before: Table, i: nat, key: string, lines: seq<string>)
    returns (r: Result<Numbering, LabelError>)
    ensures r == DefineLines(before, i, key, lines)
  {
    var table, ordinal := before, 0;
    for p := 0 to |lines|
      invariant DefineLines(before, i, key, lines[..p]) == Ok(Numbering(table, ordinal))
    {
      assert lines[..p + 1][..p] == lines[..p];
      match DefinedLabel(lines[p]) {
        case None =>
        case Some(token) =>
          if token in table {
            DuplicateStops(before, i, key, lines, p + 1);
            return Err(Duplicate(token));
          }
          table := table[token := Definition(i, key, ordinal)];
          ordinal := ordinal + 1;
      }
    }
    assert lines[..|lines|] == lines;
    r := Ok(Numbering(table, ordinal));
  }

  method NumberDefinitions(sections: seq<Section>) returns (r: Result<Table, LabelError>)
    ensures r == DefineSections(sections, |sections|)
  {
    var occurrences: map<string, nat> := map[];
    var table: Table := map[];
    for i := 0 to |sections|
      invariant forall c :: (if c in occurrences then occurrences[c] else 0) == Count(sections[..i], c)
      invariant DefineSections(sections, i) == Ok(table)
    {
      var canon := Canon(sections[i]);
      var occurrence := if canon in occurrences then occurrences[canon] else 0;
      assert sections[..i + 1][..i] == sections[..i];
      occurrences := occurrences[canon := occurrence + 1];
      var numbering := NumberSection(table, i, SectionKey(canon, occurrence), sections[i].lines);
      if numbering.Err? {
        DuplicateStopsFile(sections, i + 1);
        return Err(numbering.error);
      }
      table := numbering.value.table;
    }
    r := Ok(table);
  }

  lemma {:induction false} DuplicateStops(table: Table, owner: nat, key: string, lines: seq<string>, p: nat)
    requires p <= |lines| && DefineLines(table, owner, key, lines[..p]).Err?
    ensures DefineLines(table, owner, key, lines) == DefineLines(table, owner, key, lines[..p])
    decreases |lines| - p
  {
    if p == |lines| {
      assert lines[..p] == lines;
    } else {
      assert lines[..p + 1][..p] == lines[..p];
      DuplicateStops(table, owner, key, lines, p + 1);
    }
  }

  lemma {:induction false} DuplicateStopsFile(sections: seq<Section>, n: nat)
    requires n <= |sections| && DefineSections(sections, n).Err?
    ensures DefineSections(sections, |sections|) == DefineSections(sections, n)
    decreases |sections| - n
  {
    if n < |sections| {
      DuplicateStopsFile(sections, n + 1);
    }
  }

  // ---------------------------------------------------------------- canonical lines

  /** The text written for a label seen from section `here`. */
  function CanonText(table: Table, here: nat): string -> string {
    token => if token !in table then token
             else if table[token].owner == here then LocalMarker(table[token].ordinal)
             else RefMarker(table[token].key, table[token].ordinal)
  }

  /** The first label on the line that is defined nowhere. */
  function UndefinedIn(items: seq<Item>, table: Table): (r: Option<string>)
    ensures r.None? <==> LabelsOnly(items, table.Keys)
    ensures r.Some? ==> r.value !in table && Label(r.value) in items
  {
    if items == [] then None
    else if items[0].Label? && items[0].name !in table then Some(items[0].name)
    else
      var r := UndefinedIn(items[1..], table);
      assert items == [items[0]] + items[1..];
      r
  }

  function CanonLabels(lines: seq<string>, here: nat, table: Table): Result<seq<string>, LabelError> {
    if lines == [] then Ok([])
    else
      match CanonLabels(lines[..|lines| - 1], here, table)
      case Err(e) => Err(e)
      case Ok(done) =>
        match UndefinedIn(Line(Last(lines)), table)
        case Some(token) => Err(Undefined(token))
        case None => Ok(done + [Render(Line(Last(lines)), CanonText(table, here))])
  }

  function Normalized(lines: seq<string>): (r: seq<string>)
    ensures |r| == |lines|
  {
    seq(|lines|, i requires 0 <= i < |lines| => NormalizeHashes(lines[i]))
  }

  /** What one section adds to the body of its canonical name. */
  function Contribution(sections: seq<Section>, i: nat, table: Table): Result<seq<string>, LabelError>
    requires i < |sections|
  {
    match CanonLabels(sections[i].lines, i, table)
    case Err(e) => Err(e)
    case Ok(lines) => Ok([ATTRS_MARK + NormalizeHashes(Strip(sections[i].attrs))] + Normalized(lines))
  }

  // ---------------------------------------------------------------- bodies

  type Bodies = map<string, seq<string>>

  function Joined(bodies: Bodies, name: string, more: seq<string>): Bodies {
    bodies[name := (if name in bodies then bodies[name] else []) + more]
  }

  datatype Parsed = Parsed(funcs: Bodies, blocks: Bodies, untrusted: bool)

  predicate IsText(canon: string) { StartsWith(canon, ".text") }

  function Added(p: Parsed, canon: string, more: Result<seq<string>, LabelError>): Result<Parsed, LabelError> {
    match more
    case Err(e) => Err(e)
    case Ok(lines) =>
      Ok(if IsText(canon) then p.(funcs := Joined(p.funcs, canon, lines))
          else p.(blocks := Joined(p.blocks, canon, lines)))
  }

  /** A section's canonical name and what it contributes. */
  datatype Part = Part(name: string, lines: Result<seq<string>, LabelError>)

  function Parts(sections: seq<Section>, table: Table): (parts: seq<Part>)
    ensures |parts| == |sections|
  {
    seq(|sections|, i requires 0 <= i < |sections| => Part(Canon(sections[i]), Contribution(sections, i, table)))
  }

  function Collected(parts: seq<Part>): Result<Parsed, LabelError> {
    if parts == [] then Ok(Parsed(map[], map[], false))
    else
      match Collected(parts[..|parts| - 1])
      case Err(e) => Err(e)
      case Ok(p) => Added(p, Last(parts).name, Last(parts).lines)
  }

  lemma {:induction false} FailureStops(parts: seq<Part>, n: nat, e: LabelError)
    requires n <= |parts| && Collected(parts[..n]) == Err(e)
    ensures Collected(parts) == Err(e)
    decreases |parts| - n
  {
    if n < |parts| {
      assert parts[..n + 1][..n] == parts[..n];
      FailureStops(parts, n + 1, e);
    } else {
      assert parts[..n] == parts;
    }
  }

  /** Comparing names by canonical form: what one listing contributes to the comparison. */
  function Outcome(sections: seq<Section>): Result<Parsed, LabelError> {
    match DefineSections(sections, |sections|)
    case Err(e) => Err(e)
    case Ok(table) => Collected(Parts(sections, table))
  }

  function Parsing(lines: seq<string>): Result<Parsed, LabelError> {
    match Outcome(Sections(ScanFile(lines)))
    case Err(e) => Err(e)
    case Ok(p) => Ok(p.(untrusted := ScanFile(lines).untrusted))
  }

  method AppendNormalized(start: seq<string>, lines: seq<string>) returns (body: seq<string>)
    ensures body == start + Normalized(lines)
  {
    body := start;
    for p := 0 to |lines|
      invariant body == start + Normalized(lines)[..p]
    {
      body := body + [NormalizeHashes(lines[p])];
    }
  }

  method AddSection(bucket: Bodies, sections: seq<Section>, i: nat, table: Table)
    returns (r: Result<Bodies, LabelError>)
    requires i < |sections|
    ensures r == match Contribution(sections, i, table)
                 case Err(e) => Err(e)
                 case Ok(lines) => Ok(Joined(bucket, Canon(sections[i]), lines))
  {
    var canon := Canon(sections[i]);
    var body := if canon in bucket then bucket[canon] else [];
    var attrs := ATTRS_MARK + NormalizeHashes(Strip(sections[i].attrs));
    var labelled := CanonLabels(sections[i].lines, i, table);
    if labelled.Err? {
      return Err(labelled.error);
    }
    var start := body;
    body := AppendNormalized(body + [attrs], labelled.value);
    assert body == start + ([attrs] + Normalized(labelled.value));
    r := Ok(bucket[canon := body]);
  }

  method CollectBodies(sections: seq<Section>, table: Table) returns (r: Result<Parsed, LabelError>)
    ensures r == Collected(Parts(sections, table))
  {
    var funcs: Bodies, blocks: Bodies := map[], map[];
    ghost var parts := Parts(sections, table);
    for i := 0 to |sections|
      invariant Collected(parts[..i]) == Ok(Parsed(funcs, blocks, false))
    {
      var text := IsText(Canon(sections[i]));
      var bucket := AddSection(if text then funcs else blocks, sections, i, table);
      assert parts[..i + 1][..i] == parts[..i];
      if bucket.Err? {
        FailureStops(parts, i + 1, bucket.error);
        return Err(bucket.error);
      }
      if text {
        funcs := bucket.value;
      } else {
        blocks := bucket.value;
      }
    }
    assert parts[..|sections|] == parts;
    r := Ok(Parsed(funcs, blocks, false));
  }

  method ParseFile(lines: seq<string>) returns (r: Result<Parsed, LabelError>)
    ensures r == Parsing(lines)
  {
    var sections, untrusted := ReadSections(lines);
    var numbered := NumberDefinitions(sections);
    if numbered.Err? {
      return Err(numbered.error);
    }
    var bodies := CollectBodies(sections, numbered.value);
    if bodies.Err? {
      return bodies;
    }
    r := Ok(bodies.value.(untrusted := untrusted));
  }
}
