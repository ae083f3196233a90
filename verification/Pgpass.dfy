/**
 The line of a PostgreSQL password file: fields are escaped and joined with
 colons, and the reader of section 34.16 of the PostgreSQL 16 documentation
 gets them back.
 */
module Pgpass {

  const BACKSLASH: char := '\\'
  const COLON: char := ':'
  const NEWLINE: char := '\n'

  // Writing -------------------------------------------------------------------------

  /** `text.replace(old, new)` for a single character. */
  function Replace(text: string, what: char, replacement: string): string {
    if text == "" then ""
    else (if text[0] == what then replacement else [text[0]]) + Replace(text[1..], what, replacement)
  }

  /** Backslashes first, then colons. */
  function Escape(text: string): string {
    Replace(Replace(text, BACKSLASH, [BACKSLASH, BACKSLASH]), COLON, [BACKSLASH, COLON])
  }

  /** A backslash before every backslash and colon, in one pass. */
  function EscapeOnce(text: string): string {
    if text == "" then ""
    else Escaped(text[0]) + EscapeOnce(text[1..])
  }

  lemma {:induction false} ReplaceAppend(a: string, b: string, what: char, replacement: string)
    ensures Replace(a + b, what, replacement) == Replace(a, what, replacement) + Replace(b, what, replacement)
  {
    if a == "" {
      assert a + b == b;
    } else {
      var head := if a[0] == what then replacement else [a[0]];
      var x, y := Replace(a[1..], what, replacement), Replace(b, what, replacement);
      ReplaceAppend(a[1..], b, what, replacement);
      assert (a + b)[1..] == a[1..] + b;
      assert head + (x + y) == (head + x) + y;
    }
  }

  /** The second pass leaves the backslashes of the first alone. */
  lemma {:induction false} EscapeIsOnePass(text: string)
    ensures Escape(text) == EscapeOnce(text)
  {
    if text != "" {
      var head := if text[0] == BACKSLASH then [BACKSLASH, BACKSLASH] else [text[0]];
      var rest := Replace(text[1..], BACKSLASH, [BACKSLASH, BACKSLASH]);
      assert Replace(text, BACKSLASH, [BACKSLASH, BACKSLASH]) == head + rest;
      ReplaceAppend(head, rest, COLON, [BACKSLASH, COLON]);
      assert head[1..] == if text[0] == BACKSLASH then [BACKSLASH] else [];
      if text[0] == BACKSLASH {
        assert Replace([BACKSLASH], COLON, [BACKSLASH, COLON]) ==
          [BACKSLASH] + Replace([BACKSLASH][1..], COLON, [BACKSLASH, COLON]);
        assert Replace(head, COLON, [BACKSLASH, COLON]) == [BACKSLASH] + Replace(head[1..], COLON, [BACKSLASH, COLON]);
        assert [BACKSLASH] + [BACKSLASH] == head;
      }
      EscapeIsOnePass(text[1..]);
    }
  }

  /** The escaped fields with colons between them. */
  function Line(fields: seq<string>): string
    requires fields != []
  {
    if |fields| == 1 then Escape(fields[0]) else Escape(fields[0]) + [COLON] + Line(fields[1..])
  }

  function PasswordFile(fields: seq<string>): string
    requires fields != []
  {
    Line(fields) + [NEWLINE]
  }

  // Reading -------------------------------------------------------------------------

  /** The fields of a line: a colon ends one, and a backslash takes the next character as it is. */
  function ReadFields(line: string, current: string): seq<string> {
    if line == "" then [current]
    else if line[0] == BACKSLASH && |line| > 1 then ReadFields(line[2..], current + [line[1]])
    else if line[0] == COLON then [current] + ReadFields(line[1..], "")
    else ReadFields(line[1..], current + [line[0]])
  }

  function FirstLine(text: string): string {
    if text == "" || text[0] == NEWLINE then "" else [text[0]] + FirstLine(text[1..])
  }

  function ReadFile(text: string): seq<string> {
    ReadFields(FirstLine(text), "")
  }

  // The round trip ---------------------------------------------------------------------

  function Escaped(c: char): string {
    if c == BACKSLASH || c == COLON then [BACKSLASH, c] else [c]
  }

  /** The reader gives back an escaped character. */
  lemma ReadOne(c: char, tail: string, current: string)
    ensures ReadFields(Escaped(c) + tail, current) == ReadFields(tail, current + [c])
  {
    assert (Escaped(c) + tail)[|Escaped(c)|..] == tail;
  }

  lemma EscapeStep(text: string, rest: string)
    requires text != ""
    ensures EscapeOnce(text) + rest ==
      Escaped(text[0]) + (EscapeOnce(text[1..]) + rest)
  {
  }

  /** An escaped field is read as itself, up to what follows it. */
  lemma {:induction false} ReadEscaped(text: string, rest: string, current: string)
    ensures ReadFields(EscapeOnce(text) + rest, current) == ReadFields(rest, current + text)
    decreases |text|
  {
    if text == "" {
      assert EscapeOnce(text) + rest == rest && current + text == current;
    } else {
      var tail := EscapeOnce(text[1..]) + rest;
      EscapeStep(text, rest);
      ReadEscaped(text[1..], rest, current + [text[0]]);
      HeadMoves(current, text);
      ReadOne(text[0], tail, current);
    }
  }

  lemma HeadMoves(current: string, text: string)
    requires text != ""
    ensures current + [text[0]] + text[1..] == current + text
  {
  }

  /** The reader undoes the writer, on every list of fields. */
  lemma {:induction false} ReadLine(fields: seq<string>)
    requires fields != []
    ensures ReadFields(Line(fields), "") == fields
  {
    EscapeIsOnePass(fields[0]);
    assert "" + fields[0] == fields[0];
    if |fields| == 1 {
      ReadEscaped(fields[0], "", "");
      assert EscapeOnce(fields[0]) + "" == Line(fields);
      assert [fields[0]] == fields;
    } else {
      var rest := [COLON] + Line(fields[1..]);
      ReadEscaped(fields[0], rest, "");
      assert Line(fields) == EscapeOnce(fields[0]) + rest;
      assert rest[1..] == Line(fields[1..]);
      ReadLine(fields[1..]);
      assert [fields[0]] + fields[1..] == fields;
    }
  }

  predicate NewlineFree(fields: seq<string>) {
    forall k :: 0 <= k < |fields| ==> NEWLINE !in fields[k]
  }

  lemma {:induction false} EscapeNewlines(text: string)
    requires NEWLINE !in text
    ensures NEWLINE !in EscapeOnce(text)
  {
    if text != "" {
      EscapeNewlines(text[1..]);
    }
  }

  lemma {:induction false} LineNewlines(fields: seq<string>)
    requires fields != [] && NewlineFree(fields)
    ensures NEWLINE !in Line(fields)
  {
    EscapeNewlines(fields[0]);
    EscapeIsOnePass(fields[0]);
    if |fields| > 1 {
      LineNewlines(fields[1..]);
    }
  }

  lemma {:induction false} FirstLineOf(line: string, rest: string)
    requires NEWLINE !in line
    ensures FirstLine(line + [NEWLINE] + rest) == line
  {
    if line != "" {
      FirstLineOf(line[1..], rest);
      assert (line + [NEWLINE] + rest)[1..] == line[1..] + [NEWLINE] + rest;
    }
  }

  lemma {:induction false} FirstLineNewlines(text: string)
    ensures NEWLINE !in FirstLine(text)
  {
    if text != "" && text[0] != NEWLINE {
      FirstLineNewlines(text[1..]);
    }
  }

  lemma {:induction false} ReadNewlines(line: string, current: string)
    requires NEWLINE !in line && NEWLINE !in current
    ensures NewlineFree(ReadFields(line, current))
    decreases |line|
  {
    if line == "" {
    } else if line[0] == BACKSLASH && |line| > 1 {
      ReadNewlines(line[2..], current + [line[1]]);
    } else if line[0] == COLON {
      ReadNewlines(line[1..], "");
    } else {
      ReadNewlines(line[1..], current + [line[0]]);
    }
  }

  /** The file gives back its fields if and only if none of them contains a line feed. */
  lemma RoundTrip(fields: seq<string>)
    requires fields != []
    ensures ReadFile(PasswordFile(fields)) == fields <==> NewlineFree(fields)
  {
    var text := PasswordFile(fields);
    if NewlineFree(fields) {
      LineNewlines(fields);
      FirstLineOf(Line(fields), "");
      assert text == Line(fields) + [NEWLINE] + "";
      ReadLine(fields);
    }
    FirstLineNewlines(text);
    ReadNewlines(FirstLine(text), "");
  }
}
