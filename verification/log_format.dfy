/** The debug-gated log formatter shared by the extension and its menu:
    a message is written only when it is not a debug message or debug
    logging is on, and every line of it carries the same header. */
module LogFormat {
  import opened Base

  /** JavaScript `s.split('\n')`: the lines of `s`; always at least one. */
  function SplitLines(s: string): (r: seq<string>)
    ensures |r| >= 1
  {
    if s == [] then [""]
    else
      var rest := SplitLines(s[1..]);
      if s[0] == '\n' then [""] + rest
      else [[s[0]] + rest[0]] + rest[1..]
  }

  /** JavaScript `s.replace(/\n/g, rep)` for a replacement without `$` patterns. */
  function ReplaceNewlines(s: string, rep: string): string
  {
    if s == [] then []
    else (if s[0] == '\n' then rep else [s[0]]) + ReplaceNewlines(s[1..], rep)
  }

  /** Every element of `lines` with `header` put in front of it. */
  function Prefixed(header: string, lines: seq<string>): (r: seq<string>)
    ensures |r| == |lines|
    ensures forall i :: 0 <= i < |r| ==> r[i] == header + lines[i]
  {
    if lines == [] then []
    else [header + lines[0]] + Prefixed(header, lines[1..])
  }

  /** `<prefix><kind>: ` — the header that every written line starts with. */
  function Header(prefix: string, kind: LogKind): string
  {
    prefix + KindName(kind) + ": "
  }

  /** The text handed to `log()`: the header, then the content with every
      newline followed by the header again. */
  function Format(header: string, content: string): string
  {
    header + ReplaceNewlines(content, "\n" + header)
  }

  /** The gate: a debug message is written only with debug logging on. */
  predicate Writes(kind: LogKind, debugLogging: bool)
  {
    kind != Debug || debugLogging
  }

  /** `_logMessage(kind, content)` for a logger whose fixed prefix is `prefix`:
      the line written to the journal, or None when the gate drops it. */
  function LogMessage(prefix: string, debugLogging: bool, kind: LogKind, content: string): (r: Option<string>)
    requires '\n' !in prefix
    ensures r.Some? <==> (kind == Error || debugLogging)
    ensures r.Some? ==> SplitLines(r.value) == Prefixed(Header(prefix, kind), SplitLines(content))
  {
    if Writes(kind, debugLogging) then
      FormatSplitsIntoHeaderedLines(Header(prefix, kind), content);
      Some(Format(Header(prefix, kind), content))
    else None
  }

  /** Splitting a line without newlines glued to `s` only extends the first line of `s`. */
  lemma {:induction false} SplitAfterPlainText(a: string, s: string)
    requires '\n' !in a
    ensures SplitLines(a + s) == [a + SplitLines(s)[0]] + SplitLines(s)[1..]
    decreases |a|
  {
    if a == [] {
      assert a + s == s;
      var L := SplitLines(s);
      assert a + L[0] == L[0];
      assert L == [L[0]] + L[1..];
    } else {
      assert (a + s)[1..] == a[1..] + s;
      assert (a + s)[0] == a[0];
      SplitAfterPlainText(a[1..], s);
      assert [a[0]] + (a[1..] + SplitLines(s)[0]) == a + SplitLines(s)[0];
    }
  }

  /** After the replacement, every line but the first carries the header. */
  lemma {:induction false} SplitReplaced(header: string, s: string)
    requires '\n' !in header
    ensures SplitLines(ReplaceNewlines(s, "\n" + header))
         == [SplitLines(s)[0]] + Prefixed(header, SplitLines(s)[1..])
    decreases |s|
  {
    var rep := "\n" + header;
    if s == [] {
    } else {
      var tail := ReplaceNewlines(s[1..], rep);
      SplitReplaced(header, s[1..]);
      var L' := SplitLines(s[1..]);
      if s[0] == '\n' {
        assert ReplaceNewlines(s, rep) == "\n" + (header + tail);
        assert (("\n" + (header + tail))[1..]) == header + tail;
        SplitAfterPlainText(header, tail);
        assert SplitLines(s) == [""] + L';
        assert SplitLines(s)[1..] == L';
        assert Prefixed(header, L') == [header + L'[0]] + Prefixed(header, L'[1..]);
      } else {
        assert ReplaceNewlines(s, rep) == [s[0]] + tail;
        assert ([s[0]] + tail)[1..] == tail;
        assert SplitLines(s) == [[s[0]] + L'[0]] + L'[1..];
      }
    }
  }

  /** Every line of a formatted message is the header followed by the
      corresponding line of the content: no line escapes the prefix and no
      content is lost. */
  lemma {:induction false} FormatSplitsIntoHeaderedLines(header: string, content: string)
    requires '\n' !in header
    ensures SplitLines(Format(header, content)) == Prefixed(header, SplitLines(content))
  {
    var rep := "\n" + header;
    var tail := ReplaceNewlines(content, rep);
    SplitAfterPlainText(header, tail);
    SplitReplaced(header, content);
    var L := SplitLines(content);
    assert Prefixed(header, L) == [header + L[0]] + Prefixed(header, L[1..]);
  }

  /** Corollary in the words of the source comment: every written line starts with the header. */
  lemma EveryLineStartsWithHeader(prefix: string, debugLogging: bool, kind: LogKind, content: string)
    requires '\n' !in prefix
    requires Writes(kind, debugLogging)
    ensures var out := LogMessage(prefix, debugLogging, kind, content).value;
            forall i :: 0 <= i < |SplitLines(out)| ==>
              SplitLines(out)[i][..|Header(prefix, kind)|] == Header(prefix, kind)
  {
  }
}
