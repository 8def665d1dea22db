/** nmcli's terse (`-t`) line format: the escape-aware field splitter, the printer it undoes,
    and an account of every character of the line. */
module Terse {
  import opened Text

  // ---------- printer ----------

  predicate Special(c: char) { c == ':' || c == '\\' }

  predicate Plain(s: string) { forall i :: 0 <= i < |s| ==> !Special(s[i]) }

  /** nmcli puts a backslash before every ':' and '\'. */
  function Escape(field: string): string {
    if field == "" then ""
    else (if Special(field[0]) then ['\\', field[0]] else [field[0]]) + Escape(field[1..])
  }

  /** Escaped fields joined by colons. */
  function Render(fields: seq<string>): string
    requires fields != []
  {
    if |fields| == 1 then Escape(fields[0]) else Escape(fields[0]) + ":" + Render(fields[1..])
  }

  // ---------- splitter ----------

  /** Text put in front of the first field. */
  function Glue(buf: string, fields: seq<string>): (r: seq<string>)
    requires fields != []
    ensures r != [] && |r| == |fields|
  {
    [buf + fields[0]] + fields[1..]
  }

  /** The fields of a line: an escaped character is content, a bare colon separates, and a lone
      backslash at the end stands for itself. */
  function Fields(line: string): (fields: seq<string>)
    ensures fields != []
  {
    if line == "" then [""]
    else if line[0] == '\\' && 1 < |line| then Glue([line[1]], Fields(line[2..]))
    else if line[0] == ':' then [""] + Fields(line[1..])
    else Glue([line[0]], Fields(line[1..]))
  }

  method ParseTerse(line: string) returns (out: seq<string>)
    ensures out == Fields(line)
  {
    out := [];
    var buf := "";
    var i := 0;
    assert line[0..] == line;
    GlueEdges("", Fields(line));
    while i < |line|
      invariant i <= |line|
      invariant Fields(line) == out + Glue(buf, Fields(line[i..]))
    {
      var c := line[i];
      if c == '\\' && i + 1 < |line| {
        assert line[i..][2..] == line[i + 2..];
        GlueAppend(buf, line[i + 1], Fields(line[i + 2..]));
        buf := buf + [line[i + 1]];
        i := i + 2;
        continue;
      }
      assert line[i..][1..] == line[i + 1..];
      if c == ':' {
        GlueEdges(buf, Fields(line[i + 1..]));
        out := out + [buf];
        buf := "";
        i := i + 1;
        continue;
      }
      GlueAppend(buf, c, Fields(line[i + 1..]));
      buf := buf + [c];
      i := i + 1;
    }
    GlueEdges(buf, []);
    out := out + [buf];
  }

  lemma GlueEdges(buf: string, fields: seq<string>)
    ensures fields != [] ==> Glue("", fields) == fields
    ensures Glue(buf, [""] + fields) == [buf] + fields
  {
    if fields != [] { assert "" + fields[0] == fields[0]; }
    assert buf + "" == buf;
  }

  lemma GlueAppend(buf: string, c: char, fields: seq<string>)
    requires fields != []
    ensures Glue(buf, Glue([c], fields)) == Glue(buf + [c], fields)
  {
    assert buf + ([c] + fields[0]) == buf + [c] + fields[0];
  }

  // ---------- round trip ----------

  lemma FieldsOfEscapedChar(c: char, tail: string)
    ensures Fields((if Special(c) then ['\\', c] else [c]) + tail) == Glue([c], Fields(tail))
  {
    var line := (if Special(c) then ['\\', c] else [c]) + tail;
    if Special(c) {
      assert line[2..] == tail;
    } else {
      assert line[1..] == tail;
    }
  }

  /** Splitting after an escaped field restores the field and goes on with the rest. */
  lemma {:induction false} FieldsOfEscaped(field: string, rest: string)
    requires rest == "" || rest[0] == ':'
    ensures Fields(Escape(field) + rest) == Glue(field, Fields(rest))
  {
    if field == "" {
      assert Escape(field) + rest == rest;
      assert Glue("", Fields(rest)) == Fields(rest);
    } else {
      var head := if Special(field[0]) then ['\\', field[0]] else [field[0]];
      var tail := Escape(field[1..]) + rest;
      assert Escape(field) + rest == head + tail;
      FieldsOfEscapedChar(field[0], tail);
      FieldsOfEscaped(field[1..], rest);
      GluePrepend(field[0], field[1..], Fields(rest));
      assert [field[0]] + field[1..] == field;
    }
  }

  lemma GluePrepend(c: char, buf: string, fields: seq<string>)
    requires fields != []
    ensures Glue([c], Glue(buf, fields)) == Glue([c] + buf, fields)
  {
    assert [c] + (buf + fields[0]) == [c] + buf + fields[0];
  }

  /** Every non-empty list of fields survives printing and parsing, whatever it contains. */
  lemma {:induction false} RoundTrip(fields: seq<string>)
    requires fields != []
    ensures Fields(Render(fields)) == fields
  {
    if |fields| == 1 {
      FieldsOfEscaped(fields[0], "");
      assert Escape(fields[0]) + "" == Escape(fields[0]);
      GlueEdges(fields[0], []);
    } else {
      var rest := ":" + Render(fields[1..]);
      RoundTrip(fields[1..]);
      FieldsOfEscaped(fields[0], rest);
      assert rest[1..] == Render(fields[1..]);
      assert Render(fields) == Escape(fields[0]) + rest;
      GlueEdges(fields[0], fields[1..]);
    }
  }

  /** Parsing is insensitive to how a line was escaped: reprinting the parse of any line, even one
      that ends in a lone backslash, changes nothing that the parser sees; and two lines parse
      alike exactly when they reprint alike. */
  lemma ReprintIsCanonical(line: string, other: string)
    ensures Fields(Render(Fields(line))) == Fields(line)
    ensures Fields(line) == Fields(other) <==> Render(Fields(line)) == Render(Fields(other))
  {
    RoundTrip(Fields(line));
    RoundTrip(Fields(other));
  }

  predicate Bare(field: string) { forall i :: 0 <= i < |field| ==> field[i] != ':' && field[i] != '\\' }

  /** The rules of the format, one by one: a colon separates; */
  lemma ColonSeparates(field: string, rest: string)
    requires Bare(field)
    ensures Fields(field) == [field] && Fields(field + ":" + rest) == [field] + Fields(rest)
  {
    var tail := ":" + rest;
    PlainField(field, tail);
    PlainField(field, "");
    assert field + tail == field + ":" + rest && field + "" == field && tail[1..] == rest;
    GlueEdges(field, Fields(rest));
    GlueEdges(field, []);
  }

  /** and a backslash makes whatever follows it content, but at the very end stands for itself. */
  lemma BackslashQuotes(line: string)
    requires line != "" && line[0] == '\\'
    ensures |line| > 1 ==> Fields(line) == [[line[1]] + Fields(line[2..])[0]] + Fields(line[2..])[1..]
    ensures |line| == 1 ==> Fields(line) == [line]
  {
    if |line| == 1 {
      var none: seq<string> := [];
      assert line[1..] == "" && Fields("") == [""] && [line[0]] == line;
      GlueEdges(line, none);
      assert [""] + none == [""] && [line] + none == [line];
    }
  }

  lemma {:induction false} PlainField(field: string, rest: string)
    requires Bare(field)
    ensures Fields(field + rest) == Glue(field, Fields(rest))
  {
    if field == "" {
      assert field + rest == rest;
      GlueEdges("", Fields(rest));
    } else {
      var line := field + rest;
      assert line[1..] == field[1..] + rest;
      PlainField(field[1..], rest);
      GluePrepend(field[0], field[1..], Fields(rest));
      assert [field[0]] + field[1..] == field;
    }
  }

  // ---------- accounting ----------

  /** Position i is escaped when a backslash that is not itself escaped stands before it. */
  predicate Escaped(line: string, i: nat)
    requires i <= |line|
  {
    i > 0 && line[i - 1] == '\\' && !Escaped(line, i - 1)
  }

  predicate Separator(line: string, i: nat)
    requires i < |line|
  {
    line[i] == ':' && !Escaped(line, i)
  }

  /** A backslash that only marks the character after it. */
  predicate Marker(line: string, i: nat)
    requires i < |line|
  {
    line[i] == '\\' && !Escaped(line, i) && i + 1 < |line|
  }

  /** The characters from position i on that are neither separators nor markers. */
  function Content(line: string, i: nat): string
    requires i <= |line|
    decreases |line| - i
  {
    if i == |line| then ""
    else (if Separator(line, i) || Marker(line, i) then "" else [line[i]]) + Content(line, i + 1)
  }

  function Separators(line: string, i: nat): nat
    requires i <= |line|
    decreases |line| - i
  {
    if i == |line| then 0 else (if Separator(line, i) then 1 else 0) + Separators(line, i + 1)
  }

  function Markers(line: string, i: nat): nat
    requires i <= |line|
    decreases |line| - i
  {
    if i == |line| then 0 else (if Marker(line, i) then 1 else 0) + Markers(line, i + 1)
  }

  function Concat(fields: seq<string>): string {
    if fields == [] then "" else fields[0] + Concat(fields[1..])
  }

  lemma {:induction false} AccountFrom(line: string, i: nat)
    requires i <= |line| && !Escaped(line, i)
    ensures Concat(Fields(line[i..])) == Content(line, i)
    ensures |Fields(line[i..])| == 1 + Separators(line, i)
    decreases |line| - i
  {
    if i < |line| {
      var c := line[i];
      if c == '\\' && i + 1 < |line| {
        assert Escaped(line, i + 1) && !Escaped(line, i + 2);
        AccountFrom(line, i + 2);
        assert line[i..][2..] == line[i + 2..];
        ConcatGlue(line[i + 1], Fields(line[i + 2..]));
        assert Content(line, i) == Content(line, i + 1) == [line[i + 1]] + Content(line, i + 2);
        assert Separators(line, i) == Separators(line, i + 1) == Separators(line, i + 2);
      } else {
        assert line[i..][1..] == line[i + 1..];
        if c == '\\' {
          assert line[i + 1..] == "" && Fields("") == [""];
          ConcatGlue(c, [""]);
          assert Concat([""]) == "";
        } else {
          AccountFrom(line, i + 1);
          if c == ':' {
            assert ([""] + Fields(line[i + 1..]))[1..] == Fields(line[i + 1..]);
          } else {
            ConcatGlue(c, Fields(line[i + 1..]));
          }
        }
      }
    }
  }

  lemma ConcatGlue(c: char, fields: seq<string>)
    requires fields != []
    ensures Concat(Glue([c], fields)) == [c] + Concat(fields)
  {
    assert Glue([c], fields)[1..] == fields[1..];
    assert [c] + fields[0] + Concat(fields[1..]) == [c] + (fields[0] + Concat(fields[1..]));
  }

  lemma {:induction false} CountsAddUp(line: string, i: nat)
    requires i <= |line|
    ensures |Content(line, i)| + Separators(line, i) + Markers(line, i) == |line| - i
    decreases |line| - i
  {
    if i < |line| { CountsAddUp(line, i + 1); }
  }

  /** Every character of a line is accounted for: the fields, run together, are the line without
      its separators and escape marks, in order; there is one field more than separators. */
  lemma EveryCharacterAccounted(line: string)
    ensures Concat(Fields(line)) == Content(line, 0)
    ensures |Fields(line)| == 1 + Separators(line, 0)
    ensures |Concat(Fields(line))| + Separators(line, 0) + Markers(line, 0) == |line|
  {
    assert line[0..] == line;
    AccountFrom(line, 0);
    CountsAddUp(line, 0);
  }

  // ---------- what escaping does to one value ----------

  lemma {:induction false} EscapeLength(s: string)
    ensures |Escape(s)| >= |s|
    ensures |Escape(s)| == |s| <==> Plain(s)
    ensures Plain(s) ==> Escape(s) == s
  {
    if s != "" {
      EscapeLength(s[1..]);
      assert Plain(s) <==> !Special(s[0]) && Plain(s[1..]) by {
        assert forall i :: 0 <= i < |s[1..]| ==> s[1..][i] == s[i + 1];
        assert forall i :: 1 <= i < |s| ==> s[i] == s[1..][i - 1];
      }
    }
  }

  lemma {:induction false} EscapeEdges(s: string)
    requires s != ""
    ensures Escape(s) != ""
    ensures Escape(s)[|Escape(s)| - 1] == s[|s| - 1]
    ensures Escape(s)[0] == s[0] || Escape(s)[0] == '\\'
    ensures Trimmed(s) <==> Trimmed(Escape(s))
  {
    if |s| > 1 { EscapeEdges(s[1..]); }
    else { assert s[1..] == ""; }
    assert !IsSpace('\\') && !IsSpace(':');
  }

  lemma {:induction false} EscapeOneLine(s: string)
    requires OneLine(s)
    ensures OneLine(Escape(s))
  {
    if s != "" { EscapeOneLine(s[1..]); }
  }

  lemma {:induction false} RenderOneLine(fields: seq<string>)
    requires fields != [] && forall i :: 0 <= i < |fields| ==> OneLine(fields[i])
    ensures OneLine(Render(fields))
  {
    EscapeOneLine(fields[0]);
    if |fields| > 1 { RenderOneLine(fields[1..]); }
  }
}
