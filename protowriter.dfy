/**
 * The proto2 emitter as the stateful object it is: a writer with the
 * `first` flag and the indentation level as fields, whose print methods
 * append lines to its output and save and restore the flag around blocks.
 * Each method is proved to write exactly the lines the text functions of
 * `ProtoText` describe and to leave the fields as they say; a method
 * returning `false` stands for the exception that ends printing.
 */
module Writer {
  import opened Bytes
  import opened Descriptors
  import opened ProtoText

  class ProtoWriter {
    /** Message types by full name, for the fields of extension messages. */
    const messages: map<string, MessageProto>
    /** Extensions of each options type (keyed by "." and the type's full name), by field number. */
    const messageExtensions: map<string, map<int, FieldProto>>
    /** `UnknownFieldSet.parseFrom`, failing on malformed input. */
    const parseUnknown: seq<byte> -> Option<FieldSet>
    /** `ByteString.toStringUtf8`. */
    const utf8: seq<byte> -> string

    var first: bool
    var indentLevel: nat
    /** Every line written so far. */
    var out: seq<string>

    function Ctx(): Context
    {
      Context(messages, messageExtensions, parseUnknown, utf8)
    }

    constructor(messages: map<string, MessageProto>, messageExtensions: map<string, map<int, FieldProto>>,
                parseUnknown: seq<byte> -> Option<FieldSet>, utf8: seq<byte> -> string)
      ensures this.messages == messages && this.messageExtensions == messageExtensions
      ensures this.parseUnknown == parseUnknown && this.utf8 == utf8
      ensures !first && indentLevel == 0 && out == []
    {
      this.messages := messages;
      this.messageExtensions := messageExtensions;
      this.parseUnknown := parseUnknown;
      this.utf8 := utf8;
      first := false;
      indentLevel := 0;
      out := [];
    }

    /** `println(value)`: two spaces per indentation level, then the value. */
    method PrintLine(value: string)
      modifies this`out
      ensures out == old(out) + [Line(indentLevel, value)]
    {
      var line := "";
      var k := 0;
      while k < indentLevel
        invariant 0 <= k <= indentLevel
        invariant line == Indent(k)
      {
        line := line + "  ";
        k := k + 1;
      }
      out := out + [line + value];
    }

    /** `println()`: the indentation alone. */
    method PrintEmptyLine()
      modifies this`out
      ensures out == old(out) + [Line(indentLevel, "")]
    {
      PrintLine("");
    }

    /** The opening rule of a non-empty section. */
    method OpenSection(nonEmpty: bool)
      modifies this`out, this`first
      ensures var r := Open(nonEmpty, old(first), indentLevel);
        out == old(out) + r.lines && first == r.first
    {
      if nonEmpty {
        if first {
          first := false;
        } else {
          PrintEmptyLine();
        }
      }
    }

    method PrintImports(dependencies: seq<string>)
      modifies this`out, this`first
      ensures var r := ImportsText(dependencies, old(first), indentLevel);
        out == old(out) + r.lines && first == r.first
    {
      OpenSection(|dependencies| > 0);
      ghost var start := out;
      var i := 0;
      while i < |dependencies|
        invariant 0 <= i <= |dependencies|
        invariant out == start + ImportLines(dependencies[..i], indentLevel)
        invariant first == Open(|dependencies| > 0, old(first), indentLevel).first
      {
        assert dependencies[..i + 1][..i] == dependencies[..i];
        PrintLine("import \"" + dependencies[i] + "\";");
        i := i + 1;
      }
      assert dependencies[..i] == dependencies;
    }

    method PrintFields(fields: seq<FieldProto>) returns (ok: bool)
      modifies this`out, this`first
      ensures var r := FieldsText(fields, old(first), indentLevel);
        out == old(out) + r.lines && first == r.first && ok == r.ok
    {
      OpenSection(|fields| > 0);
      ok := PrintFieldLines(fields);
    }

    /** The `forEach` of `printFields`: one line per field until a field has no line. */
    method PrintFieldLines(fields: seq<FieldProto>) returns (ok: bool)
      modifies this`out
      ensures var r := FieldLines(fields, indentLevel);
        out == old(out) + r.lines && ok == r.ok
    {
      ghost var done := Emitted([], true);
      var i := 0;
      while i < |fields|
        invariant 0 <= i <= |fields|
        invariant done == FieldLines(fields[..i], indentLevel) && done.ok
        invariant out == old(out) + done.lines
      {
        var text := FieldText(fields[i]);
        if text.None? {
          FieldLinesFail(fields, indentLevel, i);
          return false;
        }
        FieldLinesStep(fields, indentLevel, i);
        PrintLine(text.value);
        done := Emitted(done.lines + [Line(indentLevel, text.value)], true);
        i := i + 1;
      }
      assert fields[..i] == fields;
      ok := true;
    }

    /**
     * `printOptions`: the opening rule when anything is set, one line per set
     * field, then the lines of the unrecognised fields that resolve to a
     * registered extension.
     */
    method PrintOptions(opts: Options) returns (ok: bool)
      modifies this`out, this`first
      ensures var r := OptionsText(opts, old(first), indentLevel, Ctx());
        out == old(out) + r.lines && first == r.first && ok == r.ok
    {
      OpenSection(|opts.known| > 0 || |opts.unknown| > 0);
      PrintKnownOptions(opts.known);
      var key := "." + opts.fullName;
      var extensions := if key in messageExtensions then messageExtensions[key] else map[];
      assert extensions == ExtensionsOf(Ctx(), opts.fullName);
      ok := PrintUnknownFields(opts.fullName, extensions, opts.unknown);
      ghost var open := Open(|opts.known| > 0 || |opts.unknown| > 0, old(first), indentLevel);
      ghost var known := KnownLines(opts.known, indentLevel);
      ghost var unknown := UnknownLines(indentLevel, Ctx(), opts.fullName, opts.unknown);
      AppendAssoc(old(out), open.lines, known);
      AppendAssoc(old(out), open.lines + known, unknown.lines);
    }

    /** The `forEach` over the set option fields. */
    method PrintKnownOptions(known: seq<KnownOption>)
      modifies this`out
      ensures out == old(out) + KnownLines(known, indentLevel)
    {
      var i := 0;
      while i < |known|
        invariant 0 <= i <= |known|
        invariant out == old(out) + KnownLines(known[..i], indentLevel)
      {
        assert known[..i + 1][..i] == known[..i];
        PrintLine("option " + known[i].name + " = " + OptionValueText(known[i].value) + ";");
        i := i + 1;
      }
      assert known[..i] == known;
    }

    /** The `forEach` over the unrecognised fields of an options message. */
    method PrintUnknownFields(fullName: string, extensions: map<int, FieldProto>, unknown: FieldSet) returns (ok: bool)
      requires extensions == ExtensionsOf(Ctx(), fullName)
      modifies this`out
      ensures var r := UnknownLines(indentLevel, Ctx(), fullName, unknown);
        out == old(out) + r.lines && ok == r.ok
    {
      ghost var ctx := Ctx();
      ghost var done := UnknownLines(indentLevel, ctx, fullName, []);
      var i := 0;
      while i < |unknown|
        invariant 0 <= i <= |unknown|
        invariant done == UnknownLines(indentLevel, ctx, fullName, unknown[..i])
        invariant out == old(out) + done.lines && done.ok
      {
        ghost var e := ExtensionLines(indentLevel, ctx, fullName, unknown[i]);
        UnknownLinesExtend(indentLevel, ctx, fullName, unknown, i);
        var extensionOk := PrintExtensionField(fullName, extensions, unknown[i]);
        AppendAssoc(old(out), done.lines, e.lines);
        done := Emitted(done.lines + e.lines, e.ok);
        if !extensionOk {
          UnknownLinesStop(indentLevel, ctx, fullName, unknown, i + 1);
          return false;
        }
        i := i + 1;
      }
      assert unknown[..i] == unknown;
      ok := true;
    }

    /** One unrecognised field: its payloads, when it is a known extension of a known message type. */
    method PrintExtensionField(fullName: string, extensions: map<int, FieldProto>, entry: (int, UnknownField))
      returns (ok: bool)
      requires extensions == ExtensionsOf(Ctx(), fullName)
      modifies this`out
      ensures var r := ExtensionLines(indentLevel, Ctx(), fullName, entry);
        out == old(out) + r.lines && ok == r.ok
    {
      ok := true;
      if entry.0 in extensions {
        var extension := extensions[entry.0];
        var typeName := extension.typeName.GetOr("");
        if typeName in messages {
          ok := PrintPayloads(extension.name, messages[typeName].fields, entry.1.lengthDelimited);
        }
      }
    }

    /** The `forEach` over the length-delimited values of an extension field, each parsed as a message. */
    method PrintPayloads(extension: string, fields: seq<FieldProto>, payloads: seq<seq<byte>>) returns (ok: bool)
      modifies this`out
      ensures var r := PayloadLines(indentLevel, Ctx(), extension, fields, payloads);
        out == old(out) + r.lines && ok == r.ok
    {
      ghost var ctx := Ctx();
      ghost var done := PayloadLines(indentLevel, ctx, extension, fields, []);
      var i := 0;
      while i < |payloads|
        invariant 0 <= i <= |payloads|
        invariant done == PayloadLines(indentLevel, ctx, extension, fields, payloads[..i])
        invariant out == old(out) + done.lines && done.ok
      {
        PayloadLinesExtend(indentLevel, ctx, extension, fields, payloads, i);
        var parsed := parseUnknown(payloads[i]);
        if parsed.None? {
          PayloadLinesStop(indentLevel, ctx, extension, fields, payloads, i + 1);
          return false;
        }
        ghost var a := AssignmentLines(indentLevel, extension, fields, parsed.value, utf8);
        var payloadOk := PrintAssignments(extension, fields, parsed.value);
        AppendAssoc(old(out), done.lines, a.lines);
        done := Emitted(done.lines + a.lines, a.ok);
        if !payloadOk {
          PayloadLinesStop(indentLevel, ctx, extension, fields, payloads, i + 1);
          return false;
        }
        i := i + 1;
      }
      assert payloads[..i] == payloads;
      ok := true;
    }

    /** The `forEach` over the fields of one parsed payload: `option (<extension>).<field> = <value>;`. */
    method PrintAssignments(extension: string, fields: seq<FieldProto>, entries: FieldSet) returns (ok: bool)
      modifies this`out
      ensures var r := AssignmentLines(indentLevel, extension, fields, entries, utf8);
        out == old(out) + r.lines && ok == r.ok
    {
      ghost var done := AssignmentLines(indentLevel, extension, fields, [], utf8);
      var i := 0;
      while i < |entries|
        invariant 0 <= i <= |entries|
        invariant done == AssignmentLines(indentLevel, extension, fields, entries[..i], utf8)
        invariant out == old(out) + done.lines && done.ok
      {
        AssignmentLinesExtend(indentLevel, extension, fields, entries, utf8, i);
        var field := Single(fields, entries[i].0);
        var value := ExtensionValue(entries[i].1, utf8);
        if field.None? || value.None? {
          AssignmentLinesStop(indentLevel, extension, fields, entries, utf8, i + 1);
          return false;
        }
        PrintLine("option (" + extension + ")." + field.value.name + " = " + value.value + ";");
        done := Emitted(done.lines + [Line(indentLevel, "option (" + extension + ")." + field.value.name + " = " + value.value + ";")], true);
        i := i + 1;
      }
      assert entries[..i] == entries;
      ok := true;
    }

    /**
     * The head of one block in the `forEach` loops: a blank line unless
     * `first0` is set, the header line, then `first` set and one level deeper.
     * Hands back `first0`, cleared.
     */
    method OpenBlock(header: string, first0: bool) returns (next: bool)
      modifies this`out, this`first, this`indentLevel
      ensures out == old(out) + BlockOpening(old(indentLevel), !first0, header)
      ensures !next && first && indentLevel == old(indentLevel) + 1
    {
      next := first0;
      if next {
        next := false;
      } else {
        PrintEmptyLine();
      }
      PrintLine(header + " {");
      first := true;
      indentLevel := indentLevel + 1;
    }

    /** The tail of one block: `first` restored from `first0`, one level back out, the closing brace. */
    method CloseBlock(first0: bool)
      requires indentLevel > 0
      modifies this`out, this`first, this`indentLevel
      ensures indentLevel == old(indentLevel) - 1 && first == first0
      ensures out == old(out) + [Line(indentLevel, "}")]
    {
      first := first0;
      indentLevel := indentLevel - 1;
      PrintLine("}");
    }

    /**
     * `printMessages`: one block per message, its fields one level deeper
     * with `first` set, and `first` and the level restored after it.
     */
    method PrintMessages(ms: seq<MessageProto>) returns (ok: bool)
      modifies this`out, this`first, this`indentLevel
      ensures var r := MessagesText(ms, old(first), old(indentLevel));
        out == old(out) + r.lines && ok == r.ok
      ensures ok ==> first == MessagesText(ms, old(first), old(indentLevel)).first && indentLevel == old(indentLevel)
    {
      ghost var first1 := first;
      ghost var level := indentLevel;
      ghost var done := MessagesText([], first1, level);
      var first0 := first;
      var i := 0;
      ok := true;
      while i < |ms|
        invariant 0 <= i <= |ms| && ok
        invariant indentLevel == level
        invariant done == MessagesText(ms[..i], first1, level)
        invariant out == old(out) + done.lines && done.ok
        invariant first0 == done.first && first == first0
      {
        ok, first0, done := PrintMessageAt(ms, i, first0, old(out), first1, done);
        if !ok {
          MessagesStop(ms, first1, level, i + 1);
          return;
        }
        i := i + 1;
      }
      assert ms[..i] == ms;
    }

    /** One turn of `printMessages`' loop: the `i`-th message's block after the blocks of those before it. */
    method PrintMessageAt(ms: seq<MessageProto>, i: nat, first0: bool, ghost start: seq<string>, ghost first1: bool, ghost done: Out)
        returns (ok: bool, next: bool, ghost done': Out)
      requires i < |ms| && done == MessagesText(ms[..i], first1, indentLevel) && done.ok
      requires out == start + done.lines && first0 == done.first
      modifies this`out, this`first, this`indentLevel
      ensures done' == MessagesText(ms[..i + 1], first1, old(indentLevel)) && ok == done'.ok
      ensures out == start + done'.lines
      ensures ok ==> next == done'.first && first == next && indentLevel == old(indentLevel)
    {
      ghost var level := indentLevel;
      ghost var body := FieldsText(ms[i].fields, true, level + 1);
      ghost var block := BlockLines(level, !done.first, "message " + ms[i].name, body.lines, body.ok);
      MessagesTextExtend(ms, first1, level, i);
      ok, next := PrintMessage(ms[i], first0);
      AppendAssoc(start, done.lines, block);
      done' := Out(done.lines + block, false, body.ok);
    }

    /**
     * The body of `printMessages`' `forEach` for one message, with the
     * captured `first0` passed in and handed back: the separator, the header,
     * the fields one level deeper, and `}`.
     */
    method PrintMessage(m: MessageProto, first0: bool) returns (ok: bool, next: bool)
      modifies this`out, this`first, this`indentLevel
      ensures var body := FieldsText(m.fields, true, old(indentLevel) + 1);
        out == old(out) + BlockLines(old(indentLevel), !first0, "message " + m.name, body.lines, body.ok)
        && ok == body.ok
      ensures !next && (ok ==> first == next && indentLevel == old(indentLevel))
    {
      ghost var level := indentLevel;
      ghost var opening := BlockOpening(level, !first0, "message " + m.name);
      next := OpenBlock("message " + m.name, first0);
      ghost var body := FieldsText(m.fields, true, level + 1);
      ok := PrintFields(m.fields);
      AppendAssoc(old(out), opening, body.lines);
      if !ok {
        AppendAssoc(old(out), opening + body.lines, []);
        return;
      }
      CloseBlock(next);
      AppendAssoc(old(out), opening + body.lines, [Line(level, "}")]);
    }

    /** `printMethods`: one block per method, holding the method's options one level deeper. */
    method PrintMethods(ms: seq<MethodProto>) returns (ok: bool)
      modifies this`out, this`first, this`indentLevel
      ensures var r := MethodsText(ms, old(first), old(indentLevel), Ctx());
        out == old(out) + r.lines && ok == r.ok
      ensures ok ==> first == MethodsText(ms, old(first), old(indentLevel), Ctx()).first && indentLevel == old(indentLevel)
    {
      ghost var ctx := Ctx();
      ghost var first1 := first;
      ghost var level := indentLevel;
      ghost var done := MethodsText([], first1, level, ctx);
      var first0 := first;
      var i := 0;
      ok := true;
      while i < |ms|
        invariant 0 <= i <= |ms| && ok
        invariant indentLevel == level
        invariant done == MethodsText(ms[..i], first1, level, ctx)
        invariant out == old(out) + done.lines && done.ok
        invariant first0 == done.first && first == first0
      {
        ok, first0, done := PrintMethodAt(ms, i, first0, old(out), first1, done);
        if !ok {
          MethodsStop(ms, first1, level, ctx, i + 1);
          return;
        }
        i := i + 1;
      }
      assert ms[..i] == ms;
    }

    /** One turn of `printMethods`' loop: the `i`-th method's block after the blocks of those before it. */
    method PrintMethodAt(ms: seq<MethodProto>, i: nat, first0: bool, ghost start: seq<string>, ghost first1: bool, ghost done: Out)
        returns (ok: bool, next: bool, ghost done': Out)
      requires i < |ms| && done == MethodsText(ms[..i], first1, indentLevel, Ctx()) && done.ok
      requires out == start + done.lines && first0 == done.first
      modifies this`out, this`first, this`indentLevel
      ensures done' == MethodsText(ms[..i + 1], first1, old(indentLevel), Ctx()) && ok == done'.ok
      ensures out == start + done'.lines
      ensures ok ==> next == done'.first && first == next && indentLevel == old(indentLevel)
    {
      ghost var ctx := Ctx();
      ghost var level := indentLevel;
      ghost var body := OptionsText(ms[i].options, true, level + 1, ctx);
      ghost var block := BlockLines(level, !done.first, MethodHeader(ms[i]), body.lines, body.ok);
      MethodsTextExtend(ms, first1, level, ctx, i);
      ok, next := PrintMethod(ms[i], first0);
      AppendAssoc(start, done.lines, block);
      done' := Out(done.lines + block, false, body.ok);
    }

    /** The body of `printMethods`' `forEach` for one method, with the captured `first0` passed in and handed back. */
    method PrintMethod(m: MethodProto, first0: bool) returns (ok: bool, next: bool)
      modifies this`out, this`first, this`indentLevel
      ensures var body := OptionsText(m.options, true, old(indentLevel) + 1, Ctx());
        out == old(out) + BlockLines(old(indentLevel), !first0, MethodHeader(m), body.lines, body.ok)
        && ok == body.ok
      ensures !next && (ok ==> first == next && indentLevel == old(indentLevel))
    {
      ghost var level := indentLevel;
      ghost var ctx := Ctx();
      ghost var opening := BlockOpening(level, !first0, MethodHeader(m));
      next := OpenBlock(MethodHeader(m), first0);
      ghost var body := OptionsText(m.options, true, level + 1, ctx);
      ok := PrintOptions(m.options);
      AppendAssoc(old(out), opening, body.lines);
      if !ok {
        AppendAssoc(old(out), opening + body.lines, []);
        return;
      }
      CloseBlock(next);
      AppendAssoc(old(out), opening + body.lines, [Line(level, "}")]);
    }

    /** `printServices`: one block per service, holding its options and then its methods one level deeper. */
    method PrintServices(ss: seq<ServiceProto>) returns (ok: bool)
      modifies this`out, this`first, this`indentLevel
      ensures var r := ServicesText(ss, old(first), old(indentLevel), Ctx());
        out == old(out) + r.lines && ok == r.ok
      ensures ok ==> first == ServicesText(ss, old(first), old(indentLevel), Ctx()).first && indentLevel == old(indentLevel)
    {
      ghost var ctx := Ctx();
      ghost var first1 := first;
      ghost var level := indentLevel;
      ghost var done := ServicesText([], first1, level, ctx);
      var first0 := first;
      var i := 0;
      ok := true;
      while i < |ss|
        invariant 0 <= i <= |ss| && ok
        invariant indentLevel == level
        invariant done == ServicesText(ss[..i], first1, level, ctx)
        invariant out == old(out) + done.lines && done.ok
        invariant first0 == done.first && first == first0
      {
        ok, first0, done := PrintServiceAt(ss, i, first0, old(out), first1, done);
        if !ok {
          ServicesStop(ss, first1, level, ctx, i + 1);
          return;
        }
        i := i + 1;
      }
      assert ss[..i] == ss;
    }

    /** One turn of `printServices`' loop: the `i`-th service's block after the blocks of those before it. */
    method PrintServiceAt(ss: seq<ServiceProto>, i: nat, first0: bool, ghost start: seq<string>, ghost first1: bool, ghost done: Out)
        returns (ok: bool, next: bool, ghost done': Out)
      requires i < |ss| && done == ServicesText(ss[..i], first1, indentLevel, Ctx()) && done.ok
      requires out == start + done.lines && first0 == done.first
      modifies this`out, this`first, this`indentLevel
      ensures done' == ServicesText(ss[..i + 1], first1, old(indentLevel), Ctx()) && ok == done'.ok
      ensures out == start + done'.lines
      ensures ok ==> next == done'.first && first == next && indentLevel == old(indentLevel)
    {
      ghost var ctx := Ctx();
      ghost var level := indentLevel;
      ghost var body := ServiceBody(ss[i], level + 1, ctx);
      ghost var block := BlockLines(level, !done.first, "service " + ss[i].name, body.lines, body.ok);
      ServicesTextExtend(ss, first1, level, ctx, i);
      ok, next := PrintService(ss[i], first0);
      AppendAssoc(start, done.lines, block);
      done' := Out(done.lines + block, false, body.ok);
    }

    /** The body of `printServices`' `forEach` for one service, with the captured `first0` passed in and handed back. */
    method PrintService(s: ServiceProto, first0: bool) returns (ok: bool, next: bool)
      modifies this`out, this`first, this`indentLevel
      ensures var body := ServiceBody(s, old(indentLevel) + 1, Ctx());
        out == old(out) + BlockLines(old(indentLevel), !first0, "service " + s.name, body.lines, body.ok)
        && ok == body.ok
      ensures !next && (ok ==> first == next && indentLevel == old(indentLevel))
    {
      ghost var level := indentLevel;
      ghost var ctx := Ctx();
      ghost var opening := BlockOpening(level, !first0, "service " + s.name);
      next := OpenBlock("service " + s.name, first0);
      ghost var body := ServiceBody(s, level + 1, ctx);
      ok := PrintServiceBody(s);
      AppendAssoc(old(out), opening, body.lines);
      if !ok {
        AppendAssoc(old(out), opening + body.lines, []);
        return;
      }
      CloseBlock(next);
      AppendAssoc(old(out), opening + body.lines, [Line(level, "}")]);
    }

    /** Inside a service block: `printOptions` and then `printMethods`, the first failure ending both. */
    method PrintServiceBody(s: ServiceProto) returns (ok: bool)
      requires first
      modifies this`out, this`first, this`indentLevel
      ensures var body := ServiceBody(s, old(indentLevel), Ctx());
        out == old(out) + body.lines && ok == body.ok
      ensures ok ==> first == ServiceBody(s, old(indentLevel), Ctx()).first && indentLevel == old(indentLevel)
    {
      ok := PrintOptions(s.options);
      if !ok {
        return;
      }
      ghost var options := OptionsText(s.options, true, indentLevel, Ctx());
      ok := PrintMethods(s.methods);
      AppendAssoc(old(out), options.lines, MethodsText(s.methods, options.first, old(indentLevel), Ctx()).lines);
    }

    /**
     * `print`: the syntax line, a blank line and the package line, then the
     * imports, the file options, the messages and the services.
     */
    method Print(file: FileProto) returns (ok: bool)
      modifies this`out, this`first, this`indentLevel
      ensures var r := FileText(file, old(first), old(indentLevel), Ctx());
        out == old(out) + r.lines && ok == r.ok
      ensures ok ==> first == FileText(file, old(first), old(indentLevel), Ctx()).first && indentLevel == old(indentLevel)
    {
      ghost var ctx := Ctx();
      ghost var level := indentLevel;
      ghost var header := Header(file.pkg, level);
      PrintLine("syntax = \"proto2\";");
      PrintEmptyLine();
      PrintLine("package " + file.pkg + ";");
      assert out == old(out) + header;
      ghost var imports := ImportsText(file.dependencies, old(first), level);
      PrintImports(file.dependencies);
      ghost var options := OptionsText(file.options, imports.first, level, ctx);
      ok := PrintOptions(file.options);
      ghost var upToOptions := header + imports.lines + options.lines;
      AppendAssoc(old(out), header, imports.lines);
      AppendAssoc(old(out), header + imports.lines, options.lines);
      assert out == old(out) + upToOptions;
      if !ok {
        return;
      }
      ghost var messages := MessagesText(file.messages, options.first, level);
      ok := PrintMessages(file.messages);
      AppendAssoc(old(out), upToOptions, messages.lines);
      if !ok {
        return;
      }
      ghost var services := ServicesText(file.services, messages.first, level, ctx);
      ok := PrintServices(file.services);
      AppendAssoc(old(out), upToOptions + messages.lines, services.lines);
    }
  }

  /** Concatenation regrouped, stated once so that the print loops need not rediscover it. */
  lemma AppendAssoc<T>(a: seq<T>, b: seq<T>, c: seq<T>)
    ensures a + b + c == a + (b + c)
  {
  }
}
