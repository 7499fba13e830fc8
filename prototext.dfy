/**
 * The text the proto2 emitter writes, as functions of the descriptor being
 * printed and of the emitter's two pieces of state: the `first` flag (no
 * blank line before the next non-empty section) and the indentation level.
 * Each function returns the lines written, the `first` flag afterwards, and
 * whether printing got to the end: a failing lookup (`checkNotNull`,
 * `single`, `TODO()`, a payload that does not parse) aborts printing after
 * the lines already written.
 */
module ProtoText {
  import opened Bytes
  import opened Descriptors

  /** `repeat(indentLevel) { print("  ") }`: two spaces per level. */
  function Indent(level: nat): (s: string)
    ensures |s| == 2 * level
  {
    if level == 0 then "" else Indent(level - 1) + "  "
  }

  /** Indentation is made of spaces only. */
  lemma {:induction false} IndentSpaces(level: nat)
    ensures forall i :: 0 <= i < |Indent(level)| ==> Indent(level)[i] == ' '
  {
    if level > 0 {
      IndentSpaces(level - 1);
      var s := Indent(level);
      forall i | 0 <= i < |s| ensures s[i] == ' ' {
        if i < |s| - 2 {
          assert s[i] == Indent(level - 1)[i];
        }
      }
    }
  }

  /** A line written at `level`; `Line(level, "")` is what `println()` writes. */
  function Line(level: nat, text: string): string
  {
    Indent(level) + text
  }

  /** `line` begins with at least `level` indentation steps. */
  predicate Indented(line: string, level: nat)
  {
    |line| >= 2 * level && forall i :: 0 <= i < 2 * level ==> line[i] == ' '
  }

  predicate AllIndented(lines: seq<string>, level: nat)
  {
    forall i :: 0 <= i < |lines| ==> Indented(lines[i], level)
  }

  lemma LineIndented(level: nat, text: string)
    ensures Indented(Line(level, text), level)
    ensures Indented(Line(level, text), level + 1) <==> |text| >= 2 && text[0] == ' ' && text[1] == ' '
  {
    var line := Line(level, text);
    IndentSpaces(level);
    if |text| >= 2 && text[0] == ' ' && text[1] == ' ' {
      forall i | 0 <= i < 2 * level + 2 ensures line[i] == ' ' {
        if i >= 2 * level {
          assert line[i] == text[i - 2 * level];
        }
      }
    }
    if Indented(line, level + 1) {
      assert line[2 * level] == text[0] && line[2 * level + 1] == text[1];
    }
  }

  lemma AllIndentedAppend(a: seq<string>, b: seq<string>, level: nat)
    requires AllIndented(a, level) && AllIndented(b, level)
    ensures AllIndented(a + b, level)
  {
    forall i | 0 <= i < |a + b| ensures Indented((a + b)[i], level) {
      if i >= |a| {
        assert (a + b)[i] == b[i - |a|];
      }
    }
  }

  lemma AllIndentedDeeper(lines: seq<string>, level: nat)
    requires AllIndented(lines, level + 1)
    ensures AllIndented(lines, level)
  {
  }

  // Numbers are written as Kotlin's `toString` writes an `Int` or `Long`.

  function DigitChar(d: nat): char
    requires d < 10
  {
    ('0' as int + d) as char
  }

  function Digits(n: nat): (s: string)
    ensures |s| >= 1
    decreases n
  {
    if n < 10 then [DigitChar(n)] else Digits(n / 10) + [DigitChar(n % 10)]
  }

  /** A number is written with decimal digits only. */
  lemma {:induction false} DigitsAreDigits(n: nat)
    ensures forall i :: 0 <= i < |Digits(n)| ==> '0' <= Digits(n)[i] <= '9'
    decreases n
  {
    if n >= 10 {
      DigitsAreDigits(n / 10);
      var s := Digits(n);
      forall i | 0 <= i < |s| ensures '0' <= s[i] <= '9' {
        if i < |s| - 1 {
          assert s[i] == Digits(n / 10)[i];
        }
      }
    }
  }

  /** Decimal text of `n`, with a leading minus sign when negative. */
  function Decimal(n: int): string
  {
    if n < 0 then "-" + Digits(-n) else Digits(n)
  }

  /** The value of a string of decimal digits. */
  function DigitsValue(s: string): int
  {
    if |s| == 0 then 0 else 10 * DigitsValue(s[..|s| - 1]) + (s[|s| - 1] as int - '0' as int)
  }

  /** The value of a decimal text, the reading the written numbers are meant for. */
  function DecimalValue(s: string): int
  {
    if |s| > 0 && s[0] == '-' then -DigitsValue(s[1..]) else DigitsValue(s)
  }

  lemma {:induction false} DigitsRoundTrip(n: nat)
    ensures DigitsValue(Digits(n)) == n
    decreases n
  {
    if n >= 10 {
      DigitsRoundTrip(n / 10);
      var s := Digits(n);
      assert s[..|s| - 1] == Digits(n / 10);
    }
  }

  /** A written number reads back as itself. */
  lemma DecimalRoundTrip(n: int)
    ensures DecimalValue(Decimal(n)) == n
  {
    if n < 0 {
      DigitsRoundTrip(-n);
      assert Decimal(n)[1..] == Digits(-n);
    } else {
      DigitsRoundTrip(n);
      DigitsAreDigits(n);
      assert Digits(n)[0] != '-';
    }
  }

  /** Lines written, the `first` flag afterwards, and whether printing went on to the end. */
  datatype Out = Out(lines: seq<string>, first: bool, ok: bool)

  /** Lines written and whether printing went on to the end, where `first` is not touched. */
  datatype Emitted = Emitted(lines: seq<string>, ok: bool)

  /**
   * Start of an import, option or field section: nothing when the section is
   * empty; otherwise a set `first` is cleared instead of writing a blank line.
   */
  function Open(nonEmpty: bool, first: bool, level: nat): (r: Out)
    ensures r.ok && r.first == (first && !nonEmpty)
    ensures r.lines == (if nonEmpty && !first then [Line(level, "")] else [])
  {
    if !nonEmpty then Out([], first, true)
    else if first then Out([], false, true)
    else Out([Line(level, "")], first, true)
  }

  // Imports

  function ImportLine(level: nat, dep: string): string
  {
    Line(level, "import \"" + dep + "\";")
  }

  /** One import line per dependency, in list order. */
  function ImportLines(deps: seq<string>, level: nat): (r: seq<string>)
    ensures |r| == |deps|
  {
    if |deps| == 0 then [] else ImportLines(deps[..|deps| - 1], level) + [ImportLine(level, deps[|deps| - 1])]
  }

  /** The `i`-th import line names the `i`-th dependency. */
  lemma {:induction false} ImportLinesInOrder(deps: seq<string>, level: nat)
    ensures forall i :: 0 <= i < |deps| ==> ImportLines(deps, level)[i] == ImportLine(level, deps[i])
    decreases |deps|
  {
    if |deps| > 0 {
      var prefix := deps[..|deps| - 1];
      ImportLinesInOrder(prefix, level);
      forall i | 0 <= i < |deps| - 1 ensures ImportLines(deps, level)[i] == ImportLine(level, deps[i]) {
        assert prefix[i] == deps[i];
      }
    }
  }

  function ImportsText(deps: seq<string>, first: bool, level: nat): (r: Out)
    ensures r.ok && r.first == (first && |deps| == 0)
  {
    var open := Open(|deps| > 0, first, level);
    var lines := ImportLines(deps, level);
    Out(open.lines + lines, open.first, true)
  }

  // Options

  /** A `String` value is quoted; any other value is written as its text. */
  function OptionValueText(v: OptionValue): string
  {
    match v
    case Str(s) => "\"" + s + "\""
    case Other(text) => text
  }

  function KnownLine(level: nat, o: KnownOption): string
  {
    Line(level, "option " + o.name + " = " + OptionValueText(o.value) + ";")
  }

  /** One line per set option field, in the order the options message lists them. */
  function KnownLines(known: seq<KnownOption>, level: nat): (r: seq<string>)
    ensures |r| == |known|
  {
    if |known| == 0 then [] else KnownLines(known[..|known| - 1], level) + [KnownLine(level, known[|known| - 1])]
  }

  /** The `i`-th option line writes the `i`-th set option. */
  lemma {:induction false} KnownLinesInOrder(known: seq<KnownOption>, level: nat)
    ensures forall i :: 0 <= i < |known| ==> KnownLines(known, level)[i] == KnownLine(level, known[i])
    decreases |known|
  {
    if |known| > 0 {
      var prefix := known[..|known| - 1];
      KnownLinesInOrder(prefix, level);
      forall i | 0 <= i < |known| - 1 ensures KnownLines(known, level)[i] == KnownLine(level, known[i]) {
        assert prefix[i] == known[i];
      }
    }
  }

  /**
   * What the emitter is given besides the descriptor: the message types by
   * full name, the extensions of each options type by field number, and the
   * library's unknown-field parser and UTF-8 decoder.
   */
  datatype Context = Context(
    messages: map<string, MessageProto>,
    messageExtensions: map<string, map<int, FieldProto>>,
    parseUnknown: seq<byte> -> Option<FieldSet>,
    utf8: seq<byte> -> string)

  /**
   * The value of an extension field: its first varint, else its first
   * fixed32, else its first fixed64, else the quoted UTF-8 text of its first
   * length-delimited value; a field with none of these fails (`TODO()`).
   */
  function ExtensionValue(f: UnknownField, utf8: seq<byte> -> string): (r: Option<string>)
    ensures r.None? <==> |f.varints| == 0 && |f.fixed32s| == 0 && |f.fixed64s| == 0 && |f.lengthDelimited| == 0
    ensures |f.varints| > 0 ==> r == Some(Decimal(f.varints[0]))
  {
    if |f.varints| > 0 then Some(Decimal(f.varints[0]))
    else if |f.fixed32s| > 0 then Some(Decimal(f.fixed32s[0]))
    else if |f.fixed64s| > 0 then Some(Decimal(f.fixed64s[0]))
    else if |f.lengthDelimited| > 0 then Some("\"" + utf8(f.lengthDelimited[0]) + "\"")
    else None
  }

  /** How many of the first `n` fields carry `number`, capped at two, with the first such field. */
  datatype Matches = NoMatch | OneMatch(field: FieldProto) | ManyMatches

  function MatchesUpTo(fields: seq<FieldProto>, number: int, n: nat): Matches
    requires n <= |fields|
  {
    if n == 0 then NoMatch
    else
      var prev := MatchesUpTo(fields, number, n - 1);
      if fields[n - 1].number != number then prev
      else if prev.NoMatch? then OneMatch(fields[n - 1])
      else ManyMatches
  }

  /** `single { it.number == number }`: the field with that number, failing unless exactly one has it. */
  function Single(fields: seq<FieldProto>, number: int): Option<FieldProto>
  {
    match MatchesUpTo(fields, number, |fields|)
    case OneMatch(f) => Some(f)
    case _ => None
  }

  /** Among the first `n` fields, the one at `i` is the only one with `number`. */
  predicate OnlyAt(fields: seq<FieldProto>, number: int, n: nat, i: int)
    requires n <= |fields|
  {
    0 <= i < n && fields[i].number == number &&
    forall j :: 0 <= j < n && fields[j].number == number ==> j == i
  }

  /** No match among the first `n` fields exactly when none of them has the number. */
  lemma {:induction false} MatchesUpToNone(fields: seq<FieldProto>, number: int, n: nat)
    requires n <= |fields|
    ensures MatchesUpTo(fields, number, n).NoMatch? <==> forall i :: 0 <= i < n ==> fields[i].number != number
  {
    if n > 0 {
      MatchesUpToNone(fields, number, n - 1);
    }
  }

  /** The field that is the only one with the number is the one match. */
  lemma {:induction false} MatchesUpToOnly(fields: seq<FieldProto>, number: int, n: nat, i: int)
    requires n <= |fields| && OnlyAt(fields, number, n, i)
    ensures MatchesUpTo(fields, number, n) == OneMatch(fields[i])
  {
    if i == n - 1 {
      MatchesUpToNone(fields, number, n - 1);
    } else {
      assert fields[n - 1].number != number;
      MatchesUpToOnly(fields, number, n - 1, i);
    }
  }

  /** One match only when some field is the only one with the number. */
  lemma {:induction false} MatchesUpToOne(fields: seq<FieldProto>, number: int, n: nat)
    requires n <= |fields| && MatchesUpTo(fields, number, n).OneMatch?
    ensures exists i :: OnlyAt(fields, number, n, i)
  {
    var prev := MatchesUpTo(fields, number, n - 1);
    if fields[n - 1].number != number {
      MatchesUpToOne(fields, number, n - 1);
      var i :| OnlyAt(fields, number, n - 1, i);
      assert OnlyAt(fields, number, n, i);
    } else {
      MatchesUpToNone(fields, number, n - 1);
      assert OnlyAt(fields, number, n, n - 1);
    }
  }

  /** `Single` succeeds exactly when one field has the number, and then returns that field. */
  lemma SingleSpec(fields: seq<FieldProto>, number: int, i: int)
    ensures Single(fields, number).Some? <==> exists k :: OnlyAt(fields, number, |fields|, k)
    ensures OnlyAt(fields, number, |fields|, i) ==> Single(fields, number) == Some(fields[i])
  {
    if Single(fields, number).Some? {
      MatchesUpToOne(fields, number, |fields|);
    }
    if exists k :: OnlyAt(fields, number, |fields|, k) {
      var k :| OnlyAt(fields, number, |fields|, k);
      MatchesUpToOnly(fields, number, |fields|, k);
    }
    if OnlyAt(fields, number, |fields|, i) {
      MatchesUpToOnly(fields, number, |fields|, i);
    }
  }

  /** `option (<extension>).<field> = <value>;` for one field of a parsed extension payload. */
  function AssignmentLine(level: nat, extension: string, fields: seq<FieldProto>, entry: (int, UnknownField),
                          utf8: seq<byte> -> string): (r: Option<string>)
  {
    match Single(fields, entry.0)
    case None => None
    case Some(f) =>
      match ExtensionValue(entry.1, utf8)
      case None => None
      case Some(v) =>
        var text := "option (" + extension + ")." + f.name + " = " + v + ";";
        Some(Line(level, text))
  }

  /** The assignment lines of one parsed payload, stopping at the first that fails. */
  function AssignmentLines(level: nat, extension: string, fields: seq<FieldProto>, entries: FieldSet,
                           utf8: seq<byte> -> string): (r: Emitted)
    ensures |r.lines| <= |entries|
  {
    if |entries| == 0 then Emitted([], true)
    else
      var prev := AssignmentLines(level, extension, fields, entries[..|entries| - 1], utf8);
      if !prev.ok then prev
      else
        match AssignmentLine(level, extension, fields, entries[|entries| - 1], utf8)
        case None => Emitted(prev.lines, false)
        case Some(line) => Emitted(prev.lines + [line], true)
  }

  /** A payload prints to the end exactly when each of its fields has an assignment line. */
  lemma AssignmentLinesOk(level: nat, extension: string, fields: seq<FieldProto>, entries: FieldSet,
                          utf8: seq<byte> -> string)
    ensures AssignmentLines(level, extension, fields, entries, utf8).ok <==>
      forall i :: 0 <= i < |entries| ==> AssignmentLine(level, extension, fields, entries[i], utf8).Some?
  {
    if AssignmentLines(level, extension, fields, entries, utf8).ok {
      AssignmentLinesAllAssigned(level, extension, fields, entries, utf8);
    } else {
      AssignmentLinesSomeUnassigned(level, extension, fields, entries, utf8);
    }
  }

  lemma AssignmentLinesAllAssigned(level: nat, extension: string, fields: seq<FieldProto>,
                                   entries: FieldSet, utf8: seq<byte> -> string)
    requires AssignmentLines(level, extension, fields, entries, utf8).ok
    ensures forall i :: 0 <= i < |entries| ==> AssignmentLine(level, extension, fields, entries[i], utf8).Some?
  {
    forall i | 0 <= i < |entries| ensures AssignmentLine(level, extension, fields, entries[i], utf8).Some? {
      AssignedAt(level, extension, fields, entries, utf8, i);
    }
  }

  lemma {:induction false} AssignedAt(level: nat, extension: string, fields: seq<FieldProto>,
                                      entries: FieldSet, utf8: seq<byte> -> string, i: nat)
    requires AssignmentLines(level, extension, fields, entries, utf8).ok && i < |entries|
    ensures AssignmentLine(level, extension, fields, entries[i], utf8).Some?
    decreases |entries|
  {
    if i < |entries| - 1 {
      var prefix := entries[..|entries| - 1];
      assert prefix[i] == entries[i];
      AssignedAt(level, extension, fields, prefix, utf8, i);
    }
  }

  lemma {:induction false} AssignmentLinesSomeUnassigned(level: nat, extension: string, fields: seq<FieldProto>,
                                                         entries: FieldSet, utf8: seq<byte> -> string)
    requires !AssignmentLines(level, extension, fields, entries, utf8).ok
    ensures exists i :: 0 <= i < |entries| && AssignmentLine(level, extension, fields, entries[i], utf8).None?
    decreases |entries|
  {
    var prefix := entries[..|entries| - 1];
    if AssignmentLines(level, extension, fields, prefix, utf8).ok {
      assert AssignmentLine(level, extension, fields, entries[|entries| - 1], utf8).None?;
    } else {
      AssignmentLinesSomeUnassigned(level, extension, fields, prefix, utf8);
      var j :| 0 <= j < |prefix| && AssignmentLine(level, extension, fields, prefix[j], utf8).None?;
      assert entries[j] == prefix[j];
    }
  }

  /** The fields of each parsed payload of an extension, stopping at the first failure. */
  function PayloadLines(level: nat, ctx: Context, extension: string, fields: seq<FieldProto>,
                        payloads: seq<seq<byte>>): (r: Emitted)
  {
    if |payloads| == 0 then Emitted([], true)
    else
      var prev := PayloadLines(level, ctx, extension, fields, payloads[..|payloads| - 1]);
      if !prev.ok then prev
      else
        match ctx.parseUnknown(payloads[|payloads| - 1])
        case None => Emitted(prev.lines, false)
        case Some(entries) =>
          var a := AssignmentLines(level, extension, fields, entries, ctx.utf8);
          Emitted(prev.lines + a.lines, a.ok)
  }

  /** The extensions registered for an options type, none when the type has no entry. */
  function ExtensionsOf(ctx: Context, fullName: string): map<int, FieldProto>
  {
    var key := "." + fullName;
    if key in ctx.messageExtensions then ctx.messageExtensions[key] else map[]
  }

  /**
   * An extension field resolves when its number is a registered extension of
   * the options type and the extension's message type is known.
   */
  predicate Resolves(ctx: Context, fullName: string, number: int)
  {
    var extensions := ExtensionsOf(ctx, fullName);
    number in extensions && extensions[number].typeName.GetOr("") in ctx.messages
  }

  /** The lines of one unrecognised options field: nothing unless it resolves. */
  function ExtensionLines(level: nat, ctx: Context, fullName: string, entry: (int, UnknownField)): (r: Emitted)
  {
    if !Resolves(ctx, fullName, entry.0) then Emitted([], true)
    else
      var extension := ExtensionsOf(ctx, fullName)[entry.0];
      PayloadLines(level, ctx, extension.name, ctx.messages[extension.typeName.GetOr("")].fields,
                   entry.1.lengthDelimited)
  }

  /** The lines of all unrecognised options fields, in field-number order, stopping at the first failure. */
  function UnknownLines(level: nat, ctx: Context, fullName: string, unknown: FieldSet): (r: Emitted)
  {
    if |unknown| == 0 then Emitted([], true)
    else
      var prev := UnknownLines(level, ctx, fullName, unknown[..|unknown| - 1]);
      if !prev.ok then prev
      else
        var e := ExtensionLines(level, ctx, fullName, unknown[|unknown| - 1]);
        Emitted(prev.lines + e.lines, e.ok)
  }

  /** An options section: the opening rule, the set fields, then the resolved extension fields. */
  function OptionsText(opts: Options, first: bool, level: nat, ctx: Context): (r: Out)
    ensures r.first == (first && |opts.known| == 0 && |opts.unknown| == 0)
  {
    var open := Open(|opts.known| > 0 || |opts.unknown| > 0, first, level);
    var known := KnownLines(opts.known, level);
    var unknown := UnknownLines(level, ctx, opts.fullName, opts.unknown);
    Out(open.lines + known + unknown.lines, open.first, unknown.ok)
  }

  // Fields

  /** The `fieldLabels` table, keyed by `FieldDescriptorProto.Label` numbers. */
  const FieldLabels: map<int, string> := map[1 := "optional", 2 := "required", 3 := "repeated"]

  /**
   * The `fieldTypes` table, keyed by `FieldDescriptorProto.Type` numbers: every
   * scalar type; group (10), message (11) and enum (14) are absent.
   */
  const FieldTypes: map<int, string> := map[
    1 := "double", 2 := "float", 3 := "int64", 4 := "uint64", 5 := "int32",
    6 := "fixed64", 7 := "fixed32", 8 := "bool", 9 := "string", 12 := "bytes",
    13 := "uint32", 15 := "sfixed32", 16 := "sfixed64", 17 := "sint32", 18 := "sint64"]

  /**
   * The generated proto2 getter `getLabel()`: a label number that is unset
   * or names no `Label` reads as LABEL_OPTIONAL (1).
   */
  function LabelOf(n: int): (l: int)
    ensures 1 <= l <= 3 && (1 <= n <= 3 ==> l == n)
  {
    if 1 <= n <= 3 then n else 1
  }

  /**
   * The generated proto2 getter `getType()`: a type number that is unset or
   * names no `Type` reads as TYPE_DOUBLE (1).
   */
  function TypeOf(n: int): (t: int)
    ensures 1 <= t <= 18 && (1 <= n <= 18 ==> t == n)
  {
    if 1 <= n <= 18 then n else 1
  }

  /**
   * `<label> <type> <name> = <number>;`, the type being the field's type name
   * when it has one; a label or type missing from the tables fails
   * `checkNotNull`. Label and type are read through the getters.
   */
  function FieldText(f: FieldProto): Option<string>
  {
    var fieldLabel := LabelOf(f.fieldLabel);
    var fieldType := TypeOf(f.fieldType);
    if fieldLabel !in FieldLabels then None
    else if f.typeName.None? && fieldType !in FieldTypes then None
    else
      var typ := if f.typeName.Some? then f.typeName.value else FieldTypes[fieldType];
      Some(FieldLabels[fieldLabel] + " " + typ + " " + f.name + " = " + Decimal(f.number) + ";")
  }

  /** The field's line at `level`. */
  function FieldLine(level: nat, f: FieldProto): (r: Option<string>)
  {
    match FieldText(f)
    case None => None
    case Some(text) =>
      Some(Line(level, text))
  }

  /** One line per field, in order, stopping at the first field that fails. */
  function FieldLines(fields: seq<FieldProto>, level: nat): (r: Emitted)
    ensures |r.lines| <= |fields|
    ensures r.ok ==> |r.lines| == |fields|
  {
    if |fields| == 0 then Emitted([], true)
    else
      var prev := FieldLines(fields[..|fields| - 1], level);
      if !prev.ok then prev
      else
        match FieldLine(level, fields[|fields| - 1])
        case None => Emitted(prev.lines, false)
        case Some(line) => Emitted(prev.lines + [line], true)
  }

  /** Every field has a line. */
  predicate FieldsPrintable(fields: seq<FieldProto>)
  {
    forall i :: 0 <= i < |fields| ==> FieldText(fields[i]).Some?
  }

  /**
   * The field lines are complete exactly when every field has a text, that
   * is when every field without a type name has a scalar type.
   */
  lemma {:induction false} FieldLinesOk(fields: seq<FieldProto>, level: nat)
    ensures FieldLines(fields, level).ok <==> FieldsPrintable(fields)
    ensures FieldLines(fields, level).ok <==>
      forall i :: 0 <= i < |fields| ==> fields[i].typeName.Some? || ScalarType(TypeOf(fields[i].fieldType))
    decreases |fields|
  {
    forall i | 0 <= i < |fields|
      ensures FieldText(fields[i]).Some? <==> fields[i].typeName.Some? || ScalarType(TypeOf(fields[i].fieldType))
    {
      FieldTextFails(fields[i]);
    }
    if |fields| > 0 {
      var prefix := fields[..|fields| - 1];
      FieldLinesOk(prefix, level);
      if FieldLines(fields, level).ok {
        forall i | 0 <= i < |fields| ensures FieldText(fields[i]).Some? {
          if i < |fields| - 1 {
            assert prefix[i] == fields[i];
          }
        }
      } else if FieldLines(prefix, level).ok {
        assert FieldText(fields[|fields| - 1]).None?;
      } else {
        var j :| 0 <= j < |prefix| && FieldText(prefix[j]).None?;
        assert fields[j] == prefix[j];
      }
    }
  }

  /** The printed field lines are the lines of the leading fields, one each, in order. */
  lemma {:induction false} FieldLinesInOrder(fields: seq<FieldProto>, level: nat)
    ensures var r := FieldLines(fields, level);
      forall i :: 0 <= i < |r.lines| ==> FieldLine(level, fields[i]) == Some(r.lines[i])
    decreases |fields|
  {
    if |fields| > 0 {
      FieldLinesInOrder(fields[..|fields| - 1], level);
    }
  }

  /** One more field with a line extends the printed fields by that line. */
  lemma FieldLinesStep(fields: seq<FieldProto>, level: nat, i: nat)
    requires i < |fields| && FieldLines(fields[..i], level).ok && FieldText(fields[i]).Some?
    ensures FieldLines(fields[..i + 1], level) ==
      Emitted(FieldLines(fields[..i], level).lines + [Line(level, FieldText(fields[i]).value)], true)
  {
    assert fields[..i + 1][..i] == fields[..i];
  }

  /** A field without a line ends the printed fields where they stand, marked failed. */
  lemma FieldLinesFail(fields: seq<FieldProto>, level: nat, i: nat)
    requires i < |fields| && FieldLines(fields[..i], level).ok && FieldText(fields[i]).None?
    ensures FieldLines(fields, level) == Emitted(FieldLines(fields[..i], level).lines, false)
  {
    assert fields[..i + 1][..i] == fields[..i];
    FieldLinesStop(fields, level, i + 1);
  }

  function FieldsText(fields: seq<FieldProto>, first: bool, level: nat): (r: Out)
  {
    var open := Open(|fields| > 0, first, level);
    var body := FieldLines(fields, level);
    Out(open.lines + body.lines, open.first, body.ok)
  }

  // Messages, services and methods

  /**
   * A block: a blank line when `separate`, the opening line `<header> {`, the
   * body one level deeper, and the closing `}` when the body was printed to
   * the end.
   */
  /** The blank line that separates a block from the one before it, then the block's header line. */
  function BlockOpening(level: nat, separate: bool, header: string): (r: seq<string>)
  {
    (if separate then [Line(level, "")] else []) + [Line(level, header + " {")]
  }

  function BlockLines(level: nat, separate: bool, header: string, body: seq<string>, closed: bool): (r: seq<string>)
  {
    BlockOpening(level, separate, header) + body + (if closed then [Line(level, "}")] else [])
  }

  /**
   * Top-level messages: a blank line before every block except the first when
   * `first` is set on entry, each message's fields inside its block with
   * `first` set, and `first` cleared after any block.
   */
  function MessagesText(ms: seq<MessageProto>, first: bool, level: nat): (r: Out)
    ensures r.ok ==> r.first == (first && |ms| == 0)
  {
    if |ms| == 0 then Out([], first, true)
    else
      var prev := MessagesText(ms[..|ms| - 1], first, level);
      if !prev.ok then prev
      else
        var m := ms[|ms| - 1];
        var body := FieldsText(m.fields, true, level + 1);
        var block := BlockLines(level, !prev.first, "message " + m.name, body.lines, body.ok);
        Out(prev.lines + block, false, body.ok)
  }

  function MethodHeader(m: MethodProto): string
  {
    "rpc " + m.name + " (" + m.inputType + ") returns (" + m.outputType + ")"
  }

  /** The methods of a service, each block holding the method's options. */
  function MethodsText(ms: seq<MethodProto>, first: bool, level: nat, ctx: Context): (r: Out)
    ensures r.ok ==> r.first == (first && |ms| == 0)
  {
    if |ms| == 0 then Out([], first, true)
    else
      var prev := MethodsText(ms[..|ms| - 1], first, level, ctx);
      if !prev.ok then prev
      else
        var m := ms[|ms| - 1];
        var body := OptionsText(m.options, true, level + 1, ctx);
        var block := BlockLines(level, !prev.first, MethodHeader(m), body.lines, body.ok);
        Out(prev.lines + block, false, body.ok)
  }

  /** Inside a service block: its options, then its methods, sharing the `first` flag. */
  function ServiceBody(s: ServiceProto, level: nat, ctx: Context): (r: Out)
  {
    var options := OptionsText(s.options, true, level, ctx);
    if !options.ok then options
    else
      var methods := MethodsText(s.methods, options.first, level, ctx);
      Out(options.lines + methods.lines, methods.first, methods.ok)
  }

  function ServicesText(ss: seq<ServiceProto>, first: bool, level: nat, ctx: Context): (r: Out)
    ensures r.ok ==> r.first == (first && |ss| == 0)
  {
    if |ss| == 0 then Out([], first, true)
    else
      var prev := ServicesText(ss[..|ss| - 1], first, level, ctx);
      if !prev.ok then prev
      else
        var s := ss[|ss| - 1];
        var body := ServiceBody(s, level + 1, ctx);
        var block := BlockLines(level, !prev.first, "service " + s.name, body.lines, body.ok);
        Out(prev.lines + block, false, body.ok)
  }

  function Header(pkg: string, level: nat): seq<string>
  {
    [Line(level, "syntax = \"proto2\";"), Line(level, ""), Line(level, "package " + pkg + ";")]
  }

  /**
   * A whole file: the syntax line, a blank line and the package line, then
   * the imports, the file options, the messages and the services, each
   * section starting from the `first` flag the one before left.
   */
  function FileText(file: FileProto, first: bool, level: nat, ctx: Context): (r: Out)
    ensures |r.lines| >= 3 && r.lines[..3] == Header(file.pkg, level)
  {
    var header := Header(file.pkg, level);
    var imports := ImportsText(file.dependencies, first, level);
    var options := OptionsText(file.options, imports.first, level, ctx);
    var upToOptions := header + imports.lines + options.lines;
    if !options.ok then Out(upToOptions, options.first, false)
    else
      var messages := MessagesText(file.messages, options.first, level);
      if !messages.ok then Out(upToOptions + messages.lines, messages.first, false)
      else
        var services := ServicesText(file.services, messages.first, level, ctx);
        Out(upToOptions + messages.lines + services.lines, services.first, services.ok)
  }

  // Every line is indented by the level it is written at

  lemma KnownLinesIndented(known: seq<KnownOption>, level: nat)
    ensures AllIndented(KnownLines(known, level), level)
  {
    var lines := KnownLines(known, level);
    KnownLinesInOrder(known, level);
    forall i | 0 <= i < |known| ensures Indented(lines[i], level) {
      LineIndented(level, "option " + known[i].name + " = " + OptionValueText(known[i].value) + ";");
    }
  }

  lemma ImportsIndented(deps: seq<string>, first: bool, level: nat)
    ensures AllIndented(ImportsText(deps, first, level).lines, level)
  {
    var lines := ImportLines(deps, level);
    ImportLinesInOrder(deps, level);
    forall i | 0 <= i < |deps| ensures Indented(lines[i], level) {
      LineIndented(level, "import \"" + deps[i] + "\";");
    }
    LineIndented(level, "");
    AllIndentedAppend(Open(|deps| > 0, first, level).lines, lines, level);
  }

  lemma {:induction false} AssignmentLinesIndented(level: nat, extension: string, fields: seq<FieldProto>,
                                                   entries: FieldSet, utf8: seq<byte> -> string)
    ensures AllIndented(AssignmentLines(level, extension, fields, entries, utf8).lines, level)
    decreases |entries|
  {
    if |entries| > 0 {
      var prev := AssignmentLines(level, extension, fields, entries[..|entries| - 1], utf8);
      AssignmentLinesIndented(level, extension, fields, entries[..|entries| - 1], utf8);
      var entry := entries[|entries| - 1];
      var line := AssignmentLine(level, extension, fields, entry, utf8);
      if prev.ok && line.Some? {
        var f := Single(fields, entry.0).value;
        var v := ExtensionValue(entry.1, utf8).value;
        LineIndented(level, "option (" + extension + ")." + f.name + " = " + v + ";");
        AllIndentedAppend(prev.lines, [line.value], level);
      }
    }
  }

  lemma {:induction false} PayloadLinesIndented(level: nat, ctx: Context, extension: string, fields: seq<FieldProto>,
                                                payloads: seq<seq<byte>>)
    ensures AllIndented(PayloadLines(level, ctx, extension, fields, payloads).lines, level)
    decreases |payloads|
  {
    if |payloads| > 0 {
      var prev := PayloadLines(level, ctx, extension, fields, payloads[..|payloads| - 1]);
      PayloadLinesIndented(level, ctx, extension, fields, payloads[..|payloads| - 1]);
      var parsed := ctx.parseUnknown(payloads[|payloads| - 1]);
      if prev.ok && parsed.Some? {
        AssignmentLinesIndented(level, extension, fields, parsed.value, ctx.utf8);
        AllIndentedAppend(prev.lines, AssignmentLines(level, extension, fields, parsed.value, ctx.utf8).lines, level);
      }
    }
  }

  lemma {:induction false} UnknownLinesIndented(level: nat, ctx: Context, fullName: string, unknown: FieldSet)
    ensures AllIndented(UnknownLines(level, ctx, fullName, unknown).lines, level)
    decreases |unknown|
  {
    if |unknown| > 0 {
      var prev := UnknownLines(level, ctx, fullName, unknown[..|unknown| - 1]);
      UnknownLinesIndented(level, ctx, fullName, unknown[..|unknown| - 1]);
      var entry := unknown[|unknown| - 1];
      if Resolves(ctx, fullName, entry.0) {
        var extension := ExtensionsOf(ctx, fullName)[entry.0];
        PayloadLinesIndented(level, ctx, extension.name, ctx.messages[extension.typeName.GetOr("")].fields,
                             entry.1.lengthDelimited);
      }
      AllIndentedAppend(prev.lines, ExtensionLines(level, ctx, fullName, entry).lines, level);
    }
  }

  lemma OptionsIndented(opts: Options, first: bool, level: nat, ctx: Context)
    ensures AllIndented(OptionsText(opts, first, level, ctx).lines, level)
  {
    var open := Open(|opts.known| > 0 || |opts.unknown| > 0, first, level);
    LineIndented(level, "");
    KnownLinesIndented(opts.known, level);
    UnknownLinesIndented(level, ctx, opts.fullName, opts.unknown);
    AllIndentedAppend(open.lines, KnownLines(opts.known, level), level);
    AllIndentedAppend(open.lines + KnownLines(opts.known, level), UnknownLines(level, ctx, opts.fullName, opts.unknown).lines, level);
  }

  lemma FieldsIndented(fields: seq<FieldProto>, first: bool, level: nat)
    ensures AllIndented(FieldsText(fields, first, level).lines, level)
  {
    var body := FieldLines(fields, level);
    FieldLinesInOrder(fields, level);
    forall i | 0 <= i < |body.lines| ensures Indented(body.lines[i], level) {
      LineIndented(level, FieldText(fields[i]).value);
    }
    LineIndented(level, "");
    AllIndentedAppend(Open(|fields| > 0, first, level).lines, body.lines, level);
  }

  lemma BlockIndented(level: nat, separate: bool, header: string, body: seq<string>, closed: bool)
    requires AllIndented(body, level + 1)
    ensures AllIndented(BlockLines(level, separate, header, body, closed), level)
  {
    var sep := if separate then [Line(level, "")] else [];
    var close := if closed then [Line(level, "}")] else [];
    LineIndented(level, "");
    LineIndented(level, header + " {");
    LineIndented(level, "}");
    AllIndentedAppend(sep, [Line(level, header + " {")], level);
    AllIndentedAppend(sep + [Line(level, header + " {")], body, level);
    AllIndentedAppend(sep + [Line(level, header + " {")] + body, close, level);
  }

  lemma {:induction false} MessagesIndented(ms: seq<MessageProto>, first: bool, level: nat)
    ensures AllIndented(MessagesText(ms, first, level).lines, level)
    decreases |ms|
  {
    if |ms| > 0 {
      var prev := MessagesText(ms[..|ms| - 1], first, level);
      MessagesIndented(ms[..|ms| - 1], first, level);
      if prev.ok {
        var m := ms[|ms| - 1];
        var body := FieldsText(m.fields, true, level + 1);
        FieldsIndented(m.fields, true, level + 1);
        BlockIndented(level, !prev.first, "message " + m.name, body.lines, body.ok);
        AllIndentedAppend(prev.lines, BlockLines(level, !prev.first, "message " + m.name, body.lines, body.ok), level);
      }
    }
  }

  lemma {:induction false} MethodsIndented(ms: seq<MethodProto>, first: bool, level: nat, ctx: Context)
    ensures AllIndented(MethodsText(ms, first, level, ctx).lines, level)
    decreases |ms|
  {
    if |ms| > 0 {
      var prev := MethodsText(ms[..|ms| - 1], first, level, ctx);
      MethodsIndented(ms[..|ms| - 1], first, level, ctx);
      if prev.ok {
        var m := ms[|ms| - 1];
        var body := OptionsText(m.options, true, level + 1, ctx);
        OptionsIndented(m.options, true, level + 1, ctx);
        BlockIndented(level, !prev.first, MethodHeader(m), body.lines, body.ok);
        AllIndentedAppend(prev.lines, BlockLines(level, !prev.first, MethodHeader(m), body.lines, body.ok), level);
      }
    }
  }

  lemma ServiceBodyIndented(s: ServiceProto, level: nat, ctx: Context)
    ensures AllIndented(ServiceBody(s, level, ctx).lines, level)
  {
    var options := OptionsText(s.options, true, level, ctx);
    OptionsIndented(s.options, true, level, ctx);
    if options.ok {
      MethodsIndented(s.methods, options.first, level, ctx);
      AllIndentedAppend(options.lines, MethodsText(s.methods, options.first, level, ctx).lines, level);
    }
  }

  lemma {:induction false} ServicesIndented(ss: seq<ServiceProto>, first: bool, level: nat, ctx: Context)
    ensures AllIndented(ServicesText(ss, first, level, ctx).lines, level)
    decreases |ss|
  {
    if |ss| > 0 {
      var prev := ServicesText(ss[..|ss| - 1], first, level, ctx);
      ServicesIndented(ss[..|ss| - 1], first, level, ctx);
      if prev.ok {
        var s := ss[|ss| - 1];
        var body := ServiceBody(s, level + 1, ctx);
        ServiceBodyIndented(s, level + 1, ctx);
        BlockIndented(level, !prev.first, "service " + s.name, body.lines, body.ok);
        AllIndentedAppend(prev.lines, BlockLines(level, !prev.first, "service " + s.name, body.lines, body.ok), level);
      }
    }
  }

  /**
   * Every line of a printed file, blank lines included, starts with the
   * indentation of the level printing started at; lines inside blocks are
   * indented further (see the outline lemmas below).
   */
  lemma FileIndented(file: FileProto, first: bool, level: nat, ctx: Context)
    ensures AllIndented(FileText(file, first, level, ctx).lines, level)
  {
    var header := Header(file.pkg, level);
    var imports := ImportsText(file.dependencies, first, level);
    var options := OptionsText(file.options, imports.first, level, ctx);
    LineIndented(level, "syntax = \"proto2\";");
    LineIndented(level, "");
    LineIndented(level, "package " + file.pkg + ";");
    ImportsIndented(file.dependencies, first, level);
    OptionsIndented(file.options, imports.first, level, ctx);
    AllIndentedAppend(header, imports.lines, level);
    AllIndentedAppend(header + imports.lines, options.lines, level);
    var upToOptions := header + imports.lines + options.lines;
    if options.ok {
      var messages := MessagesText(file.messages, options.first, level);
      MessagesIndented(file.messages, options.first, level);
      AllIndentedAppend(upToOptions, messages.lines, level);
      if messages.ok {
        ServicesIndented(file.services, messages.first, level, ctx);
        AllIndentedAppend(upToOptions + messages.lines,
                          ServicesText(file.services, messages.first, level, ctx).lines, level);
      }
    }
  }

  // The outline of a block list: the lines written at the list's own level

  /** The lines of `lines` written at `level` itself, not inside a deeper block. */
  function Outline(lines: seq<string>, level: nat): seq<string>
  {
    if |lines| == 0 then []
    else
      var last := lines[|lines| - 1];
      Outline(lines[..|lines| - 1], level) + (if Indented(last, level + 1) then [] else [last])
  }

  lemma {:induction false} OutlineAppend(a: seq<string>, b: seq<string>, level: nat)
    ensures Outline(a + b, level) == Outline(a, level) + Outline(b, level)
    decreases |b|
  {
    if |b| > 0 {
      assert (a + b)[..|a + b| - 1] == a + b[..|b| - 1];
      OutlineAppend(a, b[..|b| - 1], level);
    } else {
      assert a + b == a;
    }
  }

  lemma {:induction false} OutlineDeeper(lines: seq<string>, level: nat)
    requires AllIndented(lines, level + 1)
    ensures Outline(lines, level) == []
    decreases |lines|
  {
    if |lines| > 0 {
      OutlineDeeper(lines[..|lines| - 1], level);
    }
  }

  /**
   * The expected outline of a list of blocks with the given headers: a blank
   * line before each block but the first when `first` is set, then the
   * opening and the closing line of the block.
   */
  function Skeleton(headers: seq<string>, first: bool, level: nat): seq<string>
  {
    if |headers| == 0 then []
    else
      Skeleton(headers[..|headers| - 1], first, level) +
      (if first && |headers| == 1 then [] else [Line(level, "")]) +
      [Line(level, headers[|headers| - 1] + " {"), Line(level, "}")]
  }

  lemma OutlineSingle(line: string, level: nat)
    ensures Outline([line], level) == (if Indented(line, level + 1) then [] else [line])
  {
    assert [line][..0] == [];
  }

  /** A closed block shows, at its own level, its separator, its opening line and its closing line. */
  lemma BlockOutline(level: nat, separate: bool, header: string, body: seq<string>)
    requires AllIndented(body, level + 1)
    requires |header| > 0 && header[0] != ' '
    ensures Outline(BlockLines(level, separate, header, body, true), level) ==
      (if separate then [Line(level, "")] else []) + [Line(level, header + " {"), Line(level, "}")]
  {
    var sep := if separate then [Line(level, "")] else [];
    var open := Line(level, header + " {");
    var close := Line(level, "}");
    assert BlockLines(level, separate, header, body, true) == sep + [open] + body + [close];
    LineIndented(level, "");
    LineIndented(level, header + " {");
    LineIndented(level, "}");
    OutlineSingle(open, level);
    OutlineSingle(close, level);
    if separate {
      OutlineSingle(Line(level, ""), level);
    }
    OutlineDeeper(body, level);
    OutlineAppend(sep, [open], level);
    OutlineAppend(sep + [open], body, level);
    OutlineAppend(sep + [open] + body, [close], level);
  }

  /**
   * How a list of messages printed to the end splits: the list without its
   * last message, then the last message's block around some body one level
   * deeper.
   */
  lemma MessagesTextStep(ms: seq<MessageProto>, first: bool, level: nat) returns (body: seq<string>)
    requires |ms| > 0 && MessagesText(ms, first, level).ok
    ensures var prev := MessagesText(ms[..|ms| - 1], first, level);
      prev.ok && AllIndented(body, level + 1) &&
      MessagesText(ms, first, level).lines ==
        prev.lines + BlockLines(level, !prev.first, "message " + ms[|ms| - 1].name, body, true)
  {
    body := FieldsText(ms[|ms| - 1].fields, true, level + 1).lines;
    FieldsIndented(ms[|ms| - 1].fields, true, level + 1);
  }

  /** Appending one more closed block to a list extends its outline by that block's skeleton entry. */
  lemma ListOutline(prev: seq<string>, init: seq<string>, header: string, first: bool, level: nat, separate: bool, body: seq<string>)
    requires |header| > 0 && header[0] != ' '
    requires Outline(prev, level) == Skeleton(init, first, level)
    requires separate == !(first && |init| == 0)
    requires AllIndented(body, level + 1)
    ensures Outline(prev + BlockLines(level, separate, header, body, true), level) ==
      Skeleton(init + [header], first, level)
  {
    var headers := init + [header];
    assert headers[..|headers| - 1] == init;
    BlockOutline(level, separate, header, body);
    OutlineAppend(prev, BlockLines(level, separate, header, body, true), level);
  }

  function MessageHeaders(ms: seq<MessageProto>): (h: seq<string>)
    ensures |h| == |ms|
  {
    if |ms| == 0 then [] else MessageHeaders(ms[..|ms| - 1]) + ["message " + ms[|ms| - 1].name]
  }

  lemma {:induction false} MessagesOutline(ms: seq<MessageProto>, first: bool, level: nat)
    requires MessagesText(ms, first, level).ok
    ensures Outline(MessagesText(ms, first, level).lines, level) == Skeleton(MessageHeaders(ms), first, level)
    decreases |ms|
  {
    if |ms| > 0 {
      var n := |ms|;
      var prev := MessagesText(ms[..n - 1], first, level);
      var body := MessagesTextStep(ms, first, level);
      MessagesOutline(ms[..n - 1], first, level);
      var header := "message " + ms[n - 1].name;
      ListOutline(prev.lines, MessageHeaders(ms[..n - 1]), header, first, level, !prev.first, body);
    }
  }

  function MethodHeaders(ms: seq<MethodProto>): (h: seq<string>)
    ensures |h| == |ms|
  {
    if |ms| == 0 then [] else MethodHeaders(ms[..|ms| - 1]) + [MethodHeader(ms[|ms| - 1])]
  }

  /** How a list of methods printed to the end splits into the list without its last method and that block. */
  lemma MethodsTextStep(ms: seq<MethodProto>, first: bool, level: nat, ctx: Context) returns (body: seq<string>)
    requires |ms| > 0 && MethodsText(ms, first, level, ctx).ok
    ensures var prev := MethodsText(ms[..|ms| - 1], first, level, ctx);
      prev.ok && AllIndented(body, level + 1) &&
      MethodsText(ms, first, level, ctx).lines ==
        prev.lines + BlockLines(level, !prev.first, MethodHeader(ms[|ms| - 1]), body, true)
  {
    body := OptionsText(ms[|ms| - 1].options, true, level + 1, ctx).lines;
    OptionsIndented(ms[|ms| - 1].options, true, level + 1, ctx);
  }

  /** Printed to the end, the methods show one `rpc` line and one `}` line each, as `Skeleton` lays out. */
  lemma {:induction false} MethodsOutline(ms: seq<MethodProto>, first: bool, level: nat, ctx: Context)
    requires MethodsText(ms, first, level, ctx).ok
    ensures Outline(MethodsText(ms, first, level, ctx).lines, level) == Skeleton(MethodHeaders(ms), first, level)
    decreases |ms|
  {
    if |ms| > 0 {
      var n := |ms|;
      var prev := MethodsText(ms[..n - 1], first, level, ctx);
      var body := MethodsTextStep(ms, first, level, ctx);
      MethodsOutline(ms[..n - 1], first, level, ctx);
      var header := MethodHeader(ms[n - 1]);
      ListOutline(prev.lines, MethodHeaders(ms[..n - 1]), header, first, level, !prev.first, body);
    }
  }

  function ServiceHeaders(ss: seq<ServiceProto>): (h: seq<string>)
    ensures |h| == |ss|
  {
    if |ss| == 0 then [] else ServiceHeaders(ss[..|ss| - 1]) + ["service " + ss[|ss| - 1].name]
  }

  /** How a list of services printed to the end splits into the list without its last service and that block. */
  lemma ServicesTextStep(ss: seq<ServiceProto>, first: bool, level: nat, ctx: Context) returns (body: seq<string>)
    requires |ss| > 0 && ServicesText(ss, first, level, ctx).ok
    ensures var prev := ServicesText(ss[..|ss| - 1], first, level, ctx);
      prev.ok && AllIndented(body, level + 1) &&
      ServicesText(ss, first, level, ctx).lines ==
        prev.lines + BlockLines(level, !prev.first, "service " + ss[|ss| - 1].name, body, true)
  {
    body := ServiceBody(ss[|ss| - 1], level + 1, ctx).lines;
    ServiceBodyIndented(ss[|ss| - 1], level + 1, ctx);
  }

  /** Printed to the end, the services show one `service <name> {` line and one `}` line each. */
  lemma {:induction false} ServicesOutline(ss: seq<ServiceProto>, first: bool, level: nat, ctx: Context)
    requires ServicesText(ss, first, level, ctx).ok
    ensures Outline(ServicesText(ss, first, level, ctx).lines, level) == Skeleton(ServiceHeaders(ss), first, level)
    decreases |ss|
  {
    if |ss| > 0 {
      var n := |ss|;
      var prev := ServicesText(ss[..n - 1], first, level, ctx);
      var body := ServicesTextStep(ss, first, level, ctx);
      ServicesOutline(ss[..n - 1], first, level, ctx);
      var header := "service " + ss[n - 1].name;
      ListOutline(prev.lines, ServiceHeaders(ss[..n - 1]), header, first, level, !prev.first, body);
    }
  }

  // What makes printing fail, and what is skipped

  /** The scalar `FieldDescriptorProto.Type` numbers: all but group (10), message (11) and enum (14). */
  predicate ScalarType(t: int)
  {
    1 <= t <= 18 && t != 10 && t != 11 && t != 14
  }

  /**
   * The label table holds the three labels, so every label the getter
   * returns is in it; the type table holds exactly the scalar types.
   */
  lemma FieldTables()
    ensures forall l :: l in FieldLabels <==> 1 <= l <= 3
    ensures forall n :: LabelOf(n) in FieldLabels
    ensures forall t :: t in FieldTypes <==> ScalarType(t)
  {
  }

  /**
   * A field line fails exactly when the field has no type name and its type
   * is group, message or enum; the label never fails.
   */
  lemma FieldTextFails(f: FieldProto)
    ensures FieldText(f).None? <==>
      f.typeName.None? && (TypeOf(f.fieldType) == 10 || TypeOf(f.fieldType) == 11 || TypeOf(f.fieldType) == 14)
  {
    FieldTables();
  }

  /**
   * The messages print to the end exactly when every field of every message
   * has a line, whatever the `first` flag.
   */
  lemma MessagesOk(ms: seq<MessageProto>, first: bool, level: nat)
    ensures MessagesText(ms, first, level).ok <==> forall i :: 0 <= i < |ms| ==> FieldsPrintable(ms[i].fields)
  {
    if MessagesText(ms, first, level).ok {
      forall i | 0 <= i < |ms| ensures FieldsPrintable(ms[i].fields) {
        MessagePrintableAt(ms, first, level, i);
      }
    } else {
      MessagesSomeUnprintable(ms, first, level);
    }
  }

  lemma {:induction false} MessagePrintableAt(ms: seq<MessageProto>, first: bool, level: nat, i: nat)
    requires MessagesText(ms, first, level).ok && i < |ms|
    ensures FieldsPrintable(ms[i].fields)
    decreases |ms|
  {
    var prefix := ms[..|ms| - 1];
    if i < |ms| - 1 {
      assert prefix[i] == ms[i];
      MessagePrintableAt(prefix, first, level, i);
    } else {
      FieldLinesOk(ms[i].fields, level + 1);
    }
  }

  lemma {:induction false} MessagesSomeUnprintable(ms: seq<MessageProto>, first: bool, level: nat)
    requires !MessagesText(ms, first, level).ok
    ensures exists i :: 0 <= i < |ms| && !FieldsPrintable(ms[i].fields)
    decreases |ms|
  {
    var prefix := ms[..|ms| - 1];
    if MessagesText(prefix, first, level).ok {
      FieldLinesOk(ms[|ms| - 1].fields, level + 1);
      assert !FieldsPrintable(ms[|ms| - 1].fields);
    } else {
      MessagesSomeUnprintable(prefix, first, level);
      var j :| 0 <= j < |prefix| && !FieldsPrintable(prefix[j].fields);
      assert ms[j] == prefix[j];
    }
  }

  /**
   * Unknown options fields none of which resolve to a known extension message
   * print nothing and never fail.
   */
  lemma {:induction false} UnresolvedSkipped(level: nat, ctx: Context, fullName: string, unknown: FieldSet)
    requires forall i :: 0 <= i < |unknown| ==> !Resolves(ctx, fullName, unknown[i].0)
    ensures UnknownLines(level, ctx, fullName, unknown) == Emitted([], true)
    decreases |unknown|
  {
    if |unknown| > 0 {
      UnresolvedSkipped(level, ctx, fullName, unknown[..|unknown| - 1]);
    }
  }
  // Printing stops at the first failure: a failed prefix is the whole result

  /** Once an assignment line fails, the later entries print nothing. */
  lemma {:induction false} AssignmentLinesStop(level: nat, extension: string, fields: seq<FieldProto>, entries: FieldSet, utf8: seq<byte> -> string, n: nat)
    requires n <= |entries| && !AssignmentLines(level, extension, fields, entries[..n], utf8).ok
    ensures AssignmentLines(level, extension, fields, entries, utf8) == AssignmentLines(level, extension, fields, entries[..n], utf8)
    decreases |entries|
  {
    if n == |entries| {
      assert entries[..n] == entries;
    } else {
      assert entries[..|entries| - 1][..n] == entries[..n];
      AssignmentLinesStop(level, extension, fields, entries[..|entries| - 1], utf8, n);
    }
  }

  /** Once a payload fails, the later payloads print nothing. */
  lemma {:induction false} PayloadLinesStop(level: nat, ctx: Context, extension: string, fields: seq<FieldProto>, payloads: seq<seq<byte>>, n: nat)
    requires n <= |payloads| && !PayloadLines(level, ctx, extension, fields, payloads[..n]).ok
    ensures PayloadLines(level, ctx, extension, fields, payloads) == PayloadLines(level, ctx, extension, fields, payloads[..n])
    decreases |payloads|
  {
    if n == |payloads| {
      assert payloads[..n] == payloads;
    } else {
      assert payloads[..|payloads| - 1][..n] == payloads[..n];
      PayloadLinesStop(level, ctx, extension, fields, payloads[..|payloads| - 1], n);
    }
  }

  /** Once an unknown options field fails, the later ones print nothing. */
  lemma {:induction false} UnknownLinesStop(level: nat, ctx: Context, fullName: string, unknown: FieldSet, n: nat)
    requires n <= |unknown| && !UnknownLines(level, ctx, fullName, unknown[..n]).ok
    ensures UnknownLines(level, ctx, fullName, unknown) == UnknownLines(level, ctx, fullName, unknown[..n])
    decreases |unknown|
  {
    if n == |unknown| {
      assert unknown[..n] == unknown;
    } else {
      assert unknown[..|unknown| - 1][..n] == unknown[..n];
      UnknownLinesStop(level, ctx, fullName, unknown[..|unknown| - 1], n);
    }
  }

  /** Once a field line fails, the later fields print nothing. */
  lemma {:induction false} FieldLinesStop(fields: seq<FieldProto>, level: nat, n: nat)
    requires n <= |fields| && !FieldLines(fields[..n], level).ok
    ensures FieldLines(fields, level) == FieldLines(fields[..n], level)
    decreases |fields|
  {
    if n == |fields| {
      assert fields[..n] == fields;
    } else {
      assert fields[..|fields| - 1][..n] == fields[..n];
      FieldLinesStop(fields[..|fields| - 1], level, n);
    }
  }

  /** Once a message fails, the later messages print nothing. */
  lemma {:induction false} MessagesStop(ms: seq<MessageProto>, first: bool, level: nat, n: nat)
    requires n <= |ms| && !MessagesText(ms[..n], first, level).ok
    ensures MessagesText(ms, first, level) == MessagesText(ms[..n], first, level)
    decreases |ms|
  {
    if n == |ms| {
      assert ms[..n] == ms;
    } else {
      assert ms[..|ms| - 1][..n] == ms[..n];
      MessagesStop(ms[..|ms| - 1], first, level, n);
    }
  }

  /** Once a method fails, the later methods print nothing. */
  lemma {:induction false} MethodsStop(ms: seq<MethodProto>, first: bool, level: nat, ctx: Context, n: nat)
    requires n <= |ms| && !MethodsText(ms[..n], first, level, ctx).ok
    ensures MethodsText(ms, first, level, ctx) == MethodsText(ms[..n], first, level, ctx)
    decreases |ms|
  {
    if n == |ms| {
      assert ms[..n] == ms;
    } else {
      assert ms[..|ms| - 1][..n] == ms[..n];
      MethodsStop(ms[..|ms| - 1], first, level, ctx, n);
    }
  }

  /** Once a service fails, the later services print nothing. */
  lemma {:induction false} ServicesStop(ss: seq<ServiceProto>, first: bool, level: nat, ctx: Context, n: nat)
    requires n <= |ss| && !ServicesText(ss[..n], first, level, ctx).ok
    ensures ServicesText(ss, first, level, ctx) == ServicesText(ss[..n], first, level, ctx)
    decreases |ss|
  {
    if n == |ss| {
      assert ss[..n] == ss;
    } else {
      assert ss[..|ss| - 1][..n] == ss[..n];
      ServicesStop(ss[..|ss| - 1], first, level, ctx, n);
    }
  }

  // One more element: how each list function extends by its next element

  lemma AssignmentLinesExtend(level: nat, extension: string, fields: seq<FieldProto>, entries: FieldSet,
                              utf8: seq<byte> -> string, i: nat)
    requires i < |entries| && AssignmentLines(level, extension, fields, entries[..i], utf8).ok
    ensures var prev := AssignmentLines(level, extension, fields, entries[..i], utf8);
      AssignmentLines(level, extension, fields, entries[..i + 1], utf8) ==
        match AssignmentLine(level, extension, fields, entries[i], utf8)
        case None => Emitted(prev.lines, false)
        case Some(line) => Emitted(prev.lines + [line], true)
  {
    assert entries[..i + 1][..i] == entries[..i];
  }

  lemma PayloadLinesExtend(level: nat, ctx: Context, extension: string, fields: seq<FieldProto>,
                           payloads: seq<seq<byte>>, i: nat)
    requires i < |payloads| && PayloadLines(level, ctx, extension, fields, payloads[..i]).ok
    ensures var prev := PayloadLines(level, ctx, extension, fields, payloads[..i]);
      PayloadLines(level, ctx, extension, fields, payloads[..i + 1]) ==
        match ctx.parseUnknown(payloads[i])
        case None => Emitted(prev.lines, false)
        case Some(entries) =>
          var a := AssignmentLines(level, extension, fields, entries, ctx.utf8);
          Emitted(prev.lines + a.lines, a.ok)
  {
    assert payloads[..i + 1][..i] == payloads[..i];
  }

  lemma UnknownLinesExtend(level: nat, ctx: Context, fullName: string, unknown: FieldSet, i: nat)
    requires i < |unknown| && UnknownLines(level, ctx, fullName, unknown[..i]).ok
    ensures var prev := UnknownLines(level, ctx, fullName, unknown[..i]);
      var e := ExtensionLines(level, ctx, fullName, unknown[i]);
      UnknownLines(level, ctx, fullName, unknown[..i + 1]) == Emitted(prev.lines + e.lines, e.ok)
  {
    assert unknown[..i + 1][..i] == unknown[..i];
  }

  lemma MessagesTextExtend(ms: seq<MessageProto>, first: bool, level: nat, i: nat)
    requires i < |ms| && MessagesText(ms[..i], first, level).ok
    ensures var prev := MessagesText(ms[..i], first, level);
      var body := FieldsText(ms[i].fields, true, level + 1);
      MessagesText(ms[..i + 1], first, level) ==
        Out(prev.lines + BlockLines(level, !prev.first, "message " + ms[i].name, body.lines, body.ok), false, body.ok)
  {
    assert ms[..i + 1][..i] == ms[..i];
  }

  lemma MethodsTextExtend(ms: seq<MethodProto>, first: bool, level: nat, ctx: Context, i: nat)
    requires i < |ms| && MethodsText(ms[..i], first, level, ctx).ok
    ensures var prev := MethodsText(ms[..i], first, level, ctx);
      var body := OptionsText(ms[i].options, true, level + 1, ctx);
      MethodsText(ms[..i + 1], first, level, ctx) ==
        Out(prev.lines + BlockLines(level, !prev.first, MethodHeader(ms[i]), body.lines, body.ok), false, body.ok)
  {
    assert ms[..i + 1][..i] == ms[..i];
  }

  lemma ServicesTextExtend(ss: seq<ServiceProto>, first: bool, level: nat, ctx: Context, i: nat)
    requires i < |ss| && ServicesText(ss[..i], first, level, ctx).ok
    ensures var prev := ServicesText(ss[..i], first, level, ctx);
      var body := ServiceBody(ss[i], level + 1, ctx);
      ServicesText(ss[..i + 1], first, level, ctx) ==
        Out(prev.lines + BlockLines(level, !prev.first, "service " + ss[i].name, body.lines, body.ok), false, body.ok)
  {
    assert ss[..i + 1][..i] == ss[..i];
  }
}
