/**
 * The line scanner `process_markdown_content` of `websum.py` (the definition at the
 * end of the file, which shadows the one imported from `modules.utils`).
 *
 * The text is split into lines. A line whose stripped form starts with three
 * backticks is a fence: outside a block it opens one, inside a block it closes it,
 * and the buffered lines between the two fences become one `format_code_block`
 * element. Other lines outside a block are kept as they are; lines of a block
 * that is never closed are dropped. The kept elements are joined with newlines.
 *
 * `Render` and `OpenBlock` say what the scan produces from a position on, outside
 * and inside a block; the method is the loop itself, proved against them.
 */
module MarkdownScan {
  import opened Strings
  import opened CodeBlock
  import opened Markdown

  /** `line.strip().startswith('```')`. */
  predicate IsFence(line: string) {
    StartsWith(Strip(line), FenceMark)
  }

  /** The lines hold no fence. */
  predicate NoFence(lines: seq<string>) {
    forall i :: 0 <= i < |lines| ==> !IsFence(lines[i])
  }

  /** What the scan emits for `lines` when it is outside a code block. */
  function Render(lines: seq<string>, fmt: string -> string): seq<string>
    decreases |lines|, 1
  {
    if lines == [] then []
    else if IsFence(lines[0]) then OpenBlock([], lines[1..], fmt)
    else [lines[0]] + Render(lines[1..], fmt)
  }

  /** What the scan emits for `rest` inside a code block that has buffered `buffer`. */
  function OpenBlock(buffer: seq<string>, rest: seq<string>, fmt: string -> string): seq<string>
    decreases |rest|, 0
  {
    if rest == [] then []
    else if IsFence(rest[0]) then
      [fmt(JoinSep(buffer, "\n"))] + Render(rest[1..], fmt)
    else OpenBlock(buffer + [rest[0]], rest[1..], fmt)
  }

  /** `format_code_block`, its line-break passes being `layout`. */
  function BlockFormatter(layout: string -> string): string -> string {
    code => FormattedCodeBlock(code, layout)
  }

  /** The result of `process_markdown_content(markdown)`. */
  function ProcessedMarkdown(markdown: string, layout: string -> string): string {
    if markdown == [] then [] else JoinSep(Render(SplitOn(markdown, '\n'), BlockFormatter(layout)), "\n")
  }

  /** The loop of `process_markdown_content`, with its `in_code_block` flag and buffer. */
  method ProcessMarkdownContent(markdown: string, layout: string -> string) returns (r: string)
    ensures r == ProcessedMarkdown(markdown, layout)
  {
    if markdown == [] {
      return [];
    }
    var lines := SplitOn(markdown, '\n');
    var processed: seq<string> := [];
    var inBlock := false;
    var buffer: seq<string> := [];
    var fmt := BlockFormatter(layout);
    var i := 0;
    ghost var pending := Render(lines, fmt);
    while i < |lines|
      invariant 0 <= i <= |lines|
      invariant processed + pending == Render(lines, fmt)
      invariant !inBlock ==> buffer == []
      invariant pending == if inBlock then OpenBlock(buffer, lines[i..], fmt) else Render(lines[i..], fmt)
    {
      var line := lines[i];
      if IsFence(line) {
        if inBlock {
          var code := JoinSep(buffer, "\n");
          var block := FormatCodeBlock(code, layout);
          FormatterApplies(layout, code);
          CloseAt(buffer, lines, i, fmt);
          AppendAssoc(processed, [block], Render(lines[i + 1..], fmt));
          processed := processed + [block];
          pending := Render(lines[i + 1..], fmt);
          buffer := [];
          inBlock := false;
        } else {
          OpenAt(lines, i, fmt);
          pending := OpenBlock([], lines[i + 1..], fmt);
          inBlock := true;
        }
      } else if inBlock {
        BufferAt(buffer, lines, i, fmt);
        pending := OpenBlock(buffer + [line], lines[i + 1..], fmt);
        buffer := buffer + [line];
      } else {
        KeepAt(lines, i, fmt);
        AppendAssoc(processed, [line], Render(lines[i + 1..], fmt));
        processed := processed + [line];
        pending := Render(lines[i + 1..], fmt);
      }
      i := i + 1;
    }
    EmptyAppend(processed);
    r := JoinSep(processed, "\n");
  }

  /** The formatter applied to some code is `format_code_block` of it. */
  lemma FormatterApplies(layout: string -> string, code: string)
    ensures BlockFormatter(layout)(code) == FormattedCodeBlock(code, layout)
  {
  }

  /** A fence at line `i` outside a block opens one. */
  lemma OpenAt(lines: seq<string>, i: nat, fmt: string -> string)
    requires i < |lines| && IsFence(lines[i])
    ensures Render(lines[i..], fmt) == OpenBlock([], lines[i + 1..], fmt)
  {
    ScanStep(lines, i);
  }

  /** A fence at line `i` inside a block closes it. */
  lemma CloseAt(buffer: seq<string>, lines: seq<string>, i: nat, fmt: string -> string)
    requires i < |lines| && IsFence(lines[i])
    ensures OpenBlock(buffer, lines[i..], fmt) == [fmt(JoinSep(buffer, "\n"))] + Render(lines[i + 1..], fmt)
  {
    ScanStep(lines, i);
  }

  /** Another line at `i` inside a block is buffered. */
  lemma BufferAt(buffer: seq<string>, lines: seq<string>, i: nat, fmt: string -> string)
    requires i < |lines| && !IsFence(lines[i])
    ensures OpenBlock(buffer, lines[i..], fmt) == OpenBlock(buffer + [lines[i]], lines[i + 1..], fmt)
  {
    ScanStep(lines, i);
  }

  /** Another line at `i` outside a block is kept. */
  lemma KeepAt(lines: seq<string>, i: nat, fmt: string -> string)
    requires i < |lines| && !IsFence(lines[i])
    ensures Render(lines[i..], fmt) == [lines[i]] + Render(lines[i + 1..], fmt)
  {
    ScanStep(lines, i);
  }

  /** The lines from `i` on are line `i` followed by the lines from `i + 1` on. */
  lemma ScanStep(lines: seq<string>, i: nat)
    requires i < |lines|
    ensures lines[i..] != [] && lines[i..][0] == lines[i] && lines[i..][1..] == lines[i + 1..]
  {
  }

  /** Outside a block a line that is not a fence is kept. */
  lemma RenderPlain(s: seq<string>, fmt: string -> string)
    requires s != [] && !IsFence(s[0])
    ensures Render(s, fmt) == [s[0]] + Render(s[1..], fmt)
  {
  }

  /** Inside a block a line that is not a fence is buffered. */
  lemma OpenBlockPlain(buffer: seq<string>, s: seq<string>, fmt: string -> string)
    requires s != [] && !IsFence(s[0])
    ensures OpenBlock(buffer, s, fmt) == OpenBlock(buffer + [s[0]], s[1..], fmt)
  {
  }

  /** The head and tail of a concatenation with a nonempty first part. */
  lemma ConsAppend<T>(x: seq<T>, y: seq<T>)
    requires x != []
    ensures (x + y)[0] == x[0] && (x + y)[1..] == x[1..] + y
  {
  }

  /** Moving the head of `y` to the end of `x` keeps `x + y`. */
  lemma MoveHead<T>(x: seq<T>, y: seq<T>)
    requires y != []
    ensures x + [y[0]] + y[1..] == x + y
  {
    assert [y[0]] + y[1..] == y;
  }

  /** Fence-free lines before the rest are kept as they are. */
  lemma {:induction false} RenderPlainPrefix(a: seq<string>, x: seq<string>, fmt: string -> string)
    requires NoFence(a)
    ensures Render(a + x, fmt) == a + Render(x, fmt)
    decreases |a|
  {
    if a == [] {
      assert a + x == x;
    } else {
      ConsAppend(a, x);
      assert !IsFence(a[0]);
      RenderPlain(a + x, fmt);
      RenderPlainPrefix(a[1..], x, fmt);
      HeadTailAppend(a, Render(x, fmt));
    }
  }

  /** Fence-free lines inside a block are buffered. */
  lemma {:induction false} OpenBlockBuffers(buffer: seq<string>, body: seq<string>, x: seq<string>, fmt: string -> string)
    requires NoFence(body)
    ensures OpenBlock(buffer, body + x, fmt) == OpenBlock(buffer + body, x, fmt)
    decreases |body|
  {
    if body == [] {
      assert body + x == x;
      assert buffer + body == buffer;
    } else {
      ConsAppend(body, x);
      assert !IsFence(body[0]);
      OpenBlockPlain(buffer, body + x, fmt);
      OpenBlockBuffers(buffer + [body[0]], body[1..], x, fmt);
      MoveHead(buffer, body);
    }
  }

  /** Input without a fence line is copied line by line. */
  lemma RenderNoFences(lines: seq<string>, fmt: string -> string)
    requires NoFence(lines)
    ensures Render(lines, fmt) == lines
  {
    RenderPlainPrefix(lines, [], fmt);
    assert lines + [] == lines;
  }

  /** Text none of whose lines is a fence comes back unchanged. */
  lemma ProcessedWithoutFences(markdown: string, layout: string -> string)
    requires NoFence(SplitOn(markdown, '\n'))
    ensures ProcessedMarkdown(markdown, layout) == markdown
  {
    if markdown != [] {
      RenderNoFences(SplitOn(markdown, '\n'), BlockFormatter(layout));
      SplitOnJoin(markdown, '\n');
    }
  }

  /** A closed block, its two fences included, becomes one formatted block, and the
      lines around it are handled on their own. */
  lemma RenderClosedBlock(a: seq<string>, open: string, body: seq<string>, close: string,
                          rest: seq<string>, fmt: string -> string)
    requires NoFence(a) && NoFence(body) && IsFence(open) && IsFence(close)
    ensures Render(a + [open] + body + [close] + rest, fmt)
         == a + [fmt(JoinSep(body, "\n"))] + Render(rest, fmt)
  {
    var tail := body + ([close] + rest);
    Regroup(a, open, body, close, rest);
    RenderPlainPrefix(a, [open] + tail, fmt);
    RenderFence(open, tail, fmt);
    OpenBlockBuffers([], body, [close] + rest, fmt);
    EmptyAppend(body);
    OpenBlockClose(body, close, rest, fmt);
    AppendAssoc(a, [fmt(JoinSep(body, "\n"))], Render(rest, fmt));
  }

  /** The lines after a fence that is never closed are dropped. */
  lemma RenderUnclosedBlock(a: seq<string>, open: string, body: seq<string>, fmt: string -> string)
    requires NoFence(a) && NoFence(body) && IsFence(open)
    ensures Render(a + [open] + body, fmt) == a
  {
    AppendAssoc(a, [open], body);
    RenderPlainPrefix(a, [open] + body, fmt);
    RenderFence(open, body, fmt);
    OpenBlockBuffers([], body, [], fmt);
    EmptyAppend(body);
    assert a + [] == a;
  }

  /** A fence outside a block opens one. */
  lemma RenderFence(open: string, tail: seq<string>, fmt: string -> string)
    requires IsFence(open)
    ensures Render([open] + tail, fmt) == OpenBlock([], tail, fmt)
  {
    assert ([open] + tail)[1..] == tail;
  }

  /** A fence inside a block closes it and emits the formatted buffer. */
  lemma OpenBlockClose(buffer: seq<string>, close: string, rest: seq<string>, fmt: string -> string)
    requires IsFence(close)
    ensures OpenBlock(buffer, [close] + rest, fmt) == [fmt(JoinSep(buffer, "\n"))] + Render(rest, fmt)
  {
    assert ([close] + rest)[1..] == rest;
  }

  /** The two ways of grouping a line between two groups of lines. */
  lemma Regroup<T>(a: seq<T>, o: T, body: seq<T>, c: T, rest: seq<T>)
    ensures a + [o] + body + [c] + rest == a + ([o] + (body + ([c] + rest)))
  {
  }

  /** Appending to the empty sequence and appending the empty sequence change nothing. */
  lemma EmptyAppend<T>(x: seq<T>)
    ensures [] + x == x && x + [] == x
  {
  }

  /** The scan emits at most one element per input line. */
  lemma {:induction false} RenderShorter(lines: seq<string>, fmt: string -> string)
    ensures |Render(lines, fmt)| <= |lines|
    decreases |lines|, 1
  {
    if lines != [] {
      if IsFence(lines[0]) {
        OpenBlockShorter([], lines[1..], fmt);
      } else {
        RenderShorter(lines[1..], fmt);
      }
    }
  }

  /** Inside a block the scan emits fewer elements than there are lines left. */
  lemma {:induction false} OpenBlockShorter(buffer: seq<string>, rest: seq<string>, fmt: string -> string)
    ensures |OpenBlock(buffer, rest, fmt)| <= |rest|
    decreases |rest|, 0
  {
    if rest != [] {
      if IsFence(rest[0]) {
        RenderShorter(rest[1..], fmt);
      } else {
        OpenBlockShorter(buffer + [rest[0]], rest[1..], fmt);
      }
    }
  }
}
