/** The text the export helpers of utils/fileUtils.ts build: the per-part template, the
    Markdown and ZIP exports of the chunks, the file name sanitiser and the Markdown
    rendering of extracted content with its nested Reddit comments. Only the strings and
    entry lists are modelled; handing them to the browser is not. */
module FileUtils {
  import opened Common
  import opened Strings
  import opened Types
  import opened Splitter

  // ---------------------------------------------------------------------------
  // applyTemplate

  const PART: string := "{part}"
  const TOTAL: string := "{total}"

  /** No character of q occurs in a digit string. */
  lemma DigitsAvoid(d: string, q: string)
    requires IsDigits(d)
    requires forall i :: 0 <= i < |q| ==> !('0' <= q[i] <= '9')
    ensures forall i :: 0 <= i < |q| ==> q[i] !in d
  {
  }

  /** Both global replacements together leave no placeholder behind. */
  lemma PlaceholdersRemoved(template: string, p: string, t: string)
    requires IsDigits(p) && IsDigits(t) && p != [] && t != []
    ensures FreeOf(ReplaceAll(ReplaceAll(template, PART, p), TOTAL, t), PART)
    ensures FreeOf(ReplaceAll(ReplaceAll(template, PART, p), TOTAL, t), TOTAL)
  {
    DigitsAvoid(p, PART);
    DigitsAvoid(t, PART);
    DigitsAvoid(t, TOTAL);
    var once := ReplaceAll(template, PART, p);
    ReplaceAllRemoves(template, PART, p, PART);
    ReplaceAllRemoves(once, TOTAL, t, PART);
    ReplaceAllRemoves(once, TOTAL, t, TOTAL);
  }

  /** `replacePlaceholders`: every `{part}` becomes the part number, then every `{total}`
      the total. */
  function Fill(template: string, part: nat, total: nat): string
  {
    ReplaceAll(ReplaceAll(template, PART, NatToString(part)), TOTAL, NatToString(total))
  }

  /** No placeholder survives the filling. */
  lemma FillRemoves(template: string, part: nat, total: nat)
    ensures FreeOf(Fill(template, part, total), PART) && FreeOf(Fill(template, part, total), TOTAL)
  {
    NatToStringValue(part);
    NatToStringValue(total);
    PlaceholdersRemoved(template, NatToString(part), NatToString(total));
  }

  /** A template without placeholders comes out unchanged. */
  lemma FillPlain(template: string, part: nat, total: nat)
    requires FreeOf(template, PART) && FreeOf(template, TOTAL)
    ensures Fill(template, part, total) == template
  {
    ReplaceAllFree(template, PART, NatToString(part));
    ReplaceAllFree(template, TOTAL, NatToString(total));
  }

  /** `applyTemplate`. */
  function ApplyTemplate(content: string, part: nat, total: nat, header: string, footer: string): string
  {
    Fill(header, part, total) + "\n" + content + "\n" + Fill(footer, part, total)
  }

  /** A templated part is the content, unchanged, between the filled header line and the
      filled footer line, and neither of those has a placeholder left. */
  lemma ApplyTemplateShape(content: string, part: nat, total: nat, header: string, footer: string)
    ensures var r := ApplyTemplate(content, part, total, header, footer);
      var h := Fill(header, part, total);
      && StartsWith(r, h + "\n")
      && SliceAt(r, |h| + 1, content)
      && r[|h| + 1 + |content|..] == "\n" + Fill(footer, part, total)
      && FreeOf(h, PART) && FreeOf(h, TOTAL)
      && FreeOf(Fill(footer, part, total), PART) && FreeOf(Fill(footer, part, total), TOTAL)
  {
    var h := Fill(header, part, total);
    var r := ApplyTemplate(content, part, total, header, footer);
    assert r[..|h| + 1] == h + "\n";
    assert r[|h| + 1..|h| + 1 + |content|] == content;
    FillRemoves(header, part, total);
    FillRemoves(footer, part, total);
  }

  /** With placeholder-free header and footer, the part is just the three lines. */
  lemma ApplyTemplatePlain(content: string, part: nat, total: nat, header: string, footer: string)
    requires FreeOf(header, PART) && FreeOf(header, TOTAL)
    requires FreeOf(footer, PART) && FreeOf(footer, TOTAL)
    ensures ApplyTemplate(content, part, total, header, footer) == header + "\n" + content + "\n" + footer
  {
    FillPlain(header, part, total);
    FillPlain(footer, part, total);
  }

  // ---------------------------------------------------------------------------
  // Markdown and ZIP exports of the chunks

  const GLOBAL_HEADING: string := "## Global Instructions"
  const PART_HEADING: string := "### Part "

  function InstructionsBlock(templates: TemplateSettings): string
  {
    if !IsBlank(templates.firstMessage) then
      GLOBAL_HEADING + "\n\n```\n" + templates.firstMessage + "\n```\n\n---\n\n"
    else ""
  }

  /** `### Part ${partNumber} of ${total}`. */
  function PartTitle(part: nat, total: nat): string
  {
    PART_HEADING + NatToString(part) + " of " + NatToString(total)
  }

  /** The fenced, templated chunk under a part heading, with the rule that closes it. */
  function PartBlock(chunk: OutputChunk, part: nat, total: nat, templates: TemplateSettings): string
  {
    "```\n" + ApplyTemplate(chunk.content, part, total, templates.perChunkHeader, templates.perChunkFooter)
    + "\n```\n\n---\n\n"
  }

  function PartSection(chunk: OutputChunk, part: nat, total: nat, templates: TemplateSettings): string
  {
    (PartTitle(part, total) + "\n\n") + PartBlock(chunk, part, total, templates)
  }

  /** One section per chunk, in order, for parts 1..n of n. */
  function PartSections(chunks: seq<OutputChunk>, templates: TemplateSettings): (r: seq<string>)
    ensures |r| == |chunks|
    ensures forall k :: 0 <= k < |r| ==> r[k] == PartSection(chunks[k], k + 1, |chunks|, templates)
  {
    seq(|chunks|, k requires 0 <= k < |chunks| => PartSection(chunks[k], k + 1, |chunks|, templates))
  }

  /** The Markdown document of the chunks. */
  function MarkdownDocument(chunks: seq<OutputChunk>, templates: TemplateSettings): string
  {
    InstructionsBlock(templates) + Concat(PartSections(chunks, templates))
  }

  lemma ConcatSnoc(xs: seq<string>, x: string)
    ensures Concat(xs + [x]) == Concat(xs) + x
  {
    ConcatAppend(xs, [x]);
    assert Concat([x]) == x + Concat([]);
  }

  lemma EmptyRight(s: string)
    ensures s + "" == s
  {
  }

  lemma Assoc3(a: string, b: string, c: string)
    ensures a + b + c == a + (b + c)
  {
  }

  lemma Append3(a: string, b: string, c: string, d: string)
    ensures a + (b + (c + d)) == a + b + c + d
  {
  }

  /** The export loop's text after one more part: its heading, then its block. */
  lemma ExportStep(head: string, chunks: seq<OutputChunk>, templates: TemplateSettings, i: nat)
    requires i < |chunks|
    ensures head + Concat(PartSections(chunks, templates)[..i]) + (PartTitle(i + 1, |chunks|) + "\n\n")
      + PartBlock(chunks[i], i + 1, |chunks|, templates) == head + Concat(PartSections(chunks, templates)[..i + 1])
  {
    var sections := PartSections(chunks, templates);
    assert sections[..i + 1] == sections[..i] + [sections[i]];
    ConcatSnoc(sections[..i], sections[i]);
    Append3(head, Concat(sections[..i]), PartTitle(i + 1, |chunks|) + "\n\n",
      PartBlock(chunks[i], i + 1, |chunks|, templates));
  }

  /** The text `downloadAsMarkdown` builds. */
  method MarkdownExport(chunks: seq<OutputChunk>, templates: TemplateSettings) returns (markdownContent: string)
    ensures markdownContent == MarkdownDocument(chunks, templates)
  {
    ghost var head := InstructionsBlock(templates);
    ghost var sections := PartSections(chunks, templates);
    var total := |chunks|;
    markdownContent := "";
    if !IsBlank(templates.firstMessage) {
      markdownContent := InstructionsBlock(templates);
    }
    assert sections[..0] == [];
    var index := 0;
    while index < |chunks|
      invariant 0 <= index <= |chunks|
      invariant markdownContent == head + Concat(sections[..index])
    {
      var partNumber := index + 1;
      ExportStep(head, chunks, templates, index);
      markdownContent := markdownContent + (PartTitle(partNumber, total) + "\n\n");
      markdownContent := markdownContent + PartBlock(chunks[index], partNumber, total, templates);
      index := index + 1;
    }
    assert sections[..index] == sections;
  }

  /** A string that starts with p still does after anything is appended. */
  lemma StartsWithAppend(a: string, b: string, p: string)
    requires StartsWith(a, p)
    ensures StartsWith(a + b, p)
  {
    assert (a + b)[..|p|] == a[..|p|];
  }

  /** The document opens with the instructions block exactly when the first message is
      not blank. */
  lemma MarkdownInstructions(chunks: seq<OutputChunk>, templates: TemplateSettings)
    ensures StartsWith(MarkdownDocument(chunks, templates), GLOBAL_HEADING)
        <==> !IsBlank(templates.firstMessage)
  {
    if !IsBlank(templates.firstMessage) {
      var a := GLOBAL_HEADING + "\n\n```\n";
      var b := a + templates.firstMessage;
      var c := b + "\n```\n\n---\n\n";
      assert StartsWith(GLOBAL_HEADING, GLOBAL_HEADING);
      StartsWithAppend(GLOBAL_HEADING, "\n\n```\n", GLOBAL_HEADING);
      StartsWithAppend(a, templates.firstMessage, GLOBAL_HEADING);
      StartsWithAppend(b, "\n```\n\n---\n\n", GLOBAL_HEADING);
      StartsWithAppend(c, Concat(PartSections(chunks, templates)), GLOBAL_HEADING);
    } else {
      MarkdownFirstPart(chunks, templates);
    }
  }

  /** A prefix of a prefix is a prefix. */
  lemma StartsWithTrans(s: string, p: string, q: string)
    requires StartsWith(s, p) && StartsWith(p, q)
    ensures StartsWith(s, q)
  {
    assert s[..|q|] == p[..|q|];
  }

  /** Two prefixes that differ at a position cannot both open the same string. */
  lemma DifferAt(s: string, p: string, q: string, i: nat)
    requires StartsWith(s, p) && i < |p| && i < |q| && p[i] != q[i]
    ensures !StartsWith(s, q)
  {
    assert s[i] == s[..|p|][i];
    if |q| <= |s| {
      assert s[..|q|][i] == s[i];
    }
  }

  /** A concatenation starts with whatever its first piece starts with. */
  lemma ConcatStartsWith(xs: seq<string>, p: string)
    requires xs != [] && StartsWith(xs[0], p)
    ensures StartsWith(Concat(xs), p)
  {
    StartsWithAppend(xs[0], Concat(xs[1..]), p);
  }

  /** A part's section opens with its title. */
  lemma SectionStartsWithTitle(chunk: OutputChunk, part: nat, total: nat, templates: TemplateSettings)
    ensures StartsWith(PartSection(chunk, part, total, templates), PartTitle(part, total))
  {
    var title := PartTitle(part, total);
    assert StartsWith(title, title);
    StartsWithAppend(title, "\n\n", title);
    StartsWithAppend(title + "\n\n", PartBlock(chunk, part, total, templates), title);
  }

  lemma TitleStartsWithHeading(part: nat, total: nat)
    ensures StartsWith(PartTitle(part, total), PART_HEADING)
  {
    var t := PartTitle(part, total);
    assert t[..|PART_HEADING|] == PART_HEADING;
  }

  /** The title of part 1. */
  lemma FirstPartTitle(total: nat)
    ensures PartTitle(1, total) == PART_HEADING + "1 of " + NatToString(total)
  {
    assert NatToString(1) == "1";
  }

  /** Without instructions the document opens with the heading of part 1 (or is empty). */
  lemma MarkdownFirstPart(chunks: seq<OutputChunk>, templates: TemplateSettings)
    requires IsBlank(templates.firstMessage)
    ensures chunks != [] ==> StartsWith(MarkdownDocument(chunks, templates), PartTitle(1, |chunks|))
    ensures !StartsWith(MarkdownDocument(chunks, templates), GLOBAL_HEADING)
  {
    var doc := MarkdownDocument(chunks, templates);
    var sections := PartSections(chunks, templates);
    assert doc == Concat(sections);
    if chunks != [] {
      var title := PartTitle(1, |chunks|);
      assert sections[0] == PartSection(chunks[0], 1, |chunks|, templates);
      SectionStartsWithTitle(chunks[0], 1, |chunks|, templates);
      ConcatStartsWith(sections, title);
      TitleStartsWithHeading(1, |chunks|);
      StartsWithTrans(doc, title, PART_HEADING);
      DifferAt(doc, PART_HEADING, GLOBAL_HEADING, 2);
    }
  }

  datatype ZipEntry = ZipEntry(name: string, content: string)

  const INSTRUCTIONS_FILE: string := "000_instructions.txt"

  /** The instructions entry, present only for a first message that is not blank. */
  function InstructionsEntry(templates: TemplateSettings): seq<ZipEntry>
  {
    if IsBlank(templates.firstMessage) then [] else [ZipEntry(INSTRUCTIONS_FILE, templates.firstMessage)]
  }

  /** The files `downloadAsZip` adds, in order: the instructions for a non-blank first
      message, then every chunk under its own name with its templated content. */
  method ZipEntries(chunks: seq<OutputChunk>, templates: TemplateSettings) returns (entries: seq<ZipEntry>)
    ensures var first := InstructionsEntry(templates);
      && |entries| == |first| + |chunks|
      && entries[..|first|] == first
      && forall k :: 0 <= k < |chunks| ==>
           entries[|first| + k] == ZipEntry(chunks[k].name,
             ApplyTemplate(chunks[k].content, k + 1, |chunks|, templates.perChunkHeader, templates.perChunkFooter))
  {
    var total := |chunks|;
    entries := [];
    if !IsBlank(templates.firstMessage) {
      entries := entries + [ZipEntry(INSTRUCTIONS_FILE, templates.firstMessage)];
    }
    ghost var first := entries;
    var index := 0;
    while index < |chunks|
      invariant 0 <= index <= |chunks|
      invariant |entries| == |first| + index
      invariant entries[..|first|] == first
      invariant forall k :: 0 <= k < index ==>
        entries[|first| + k] == ZipEntry(chunks[k].name,
          ApplyTemplate(chunks[k].content, k + 1, total, templates.perChunkHeader, templates.perChunkFooter))
    {
      var partNumber := index + 1;
      var contentWithTemplate := ApplyTemplate(chunks[index].content, partNumber, total,
        templates.perChunkHeader, templates.perChunkFooter);
      entries := entries + [ZipEntry(chunks[index].name, contentWithTemplate)];
      index := index + 1;
    }
  }

  /** For the chunks `splitText` names, no two archive entries share a name, so no file of
      the archive replaces another. */
  lemma ZipNamesDistinct(n: nat, i: nat, j: nat)
    requires i < n && j < n && i != j
    ensures ChunkName(i, n) != ChunkName(j, n)
    ensures ChunkName(i, n) != INSTRUCTIONS_FILE
  {
    ChunkNamesDistinct(i, j, n);
    assert ChunkName(i, n)[0] == 's';
  }

  // ---------------------------------------------------------------------------
  // sanitizeFilename

  /** The characters `[a-z0-9_\-]` matches case-insensitively. */
  predicate Allowed(c: char)
  {
    ('a' <= c <= 'z') || ('A' <= c <= 'Z') || ('0' <= c <= '9') || c == '_' || c == '-'
  }

  /** `name.replace(/[^a-z0-9_\-]/gi, '_')`. */
  function Underscored(name: string): (r: string)
    ensures |r| == |name|
    ensures forall i :: 0 <= i < |r| ==> Allowed(r[i])
    ensures forall i :: 0 <= i < |r| ==> (Allowed(name[i]) ==> r[i] == name[i]) && (!Allowed(name[i]) ==> r[i] == '_')
  {
    seq(|name|, i requires 0 <= i < |name| => if Allowed(name[i]) then name[i] else '_')
  }

  /** `sanitizeFilename`: at most 100 characters, each allowed one kept in place and every
      other one replaced by `_`. */
  function SanitizeFilename(name: string): (r: string)
    ensures |r| == Min(|name|, 100)
    ensures forall i :: 0 <= i < |r| ==> Allowed(r[i])
    ensures forall i :: 0 <= i < |r| ==> (Allowed(name[i]) ==> r[i] == name[i]) && (!Allowed(name[i]) ==> r[i] == '_')
  {
    var u := Underscored(name);
    u[..Min(|u|, 100)]
  }

  /** Sanitising a sanitised name changes nothing. */
  lemma SanitizeIdempotent(name: string)
    ensures SanitizeFilename(SanitizeFilename(name)) == SanitizeFilename(name)
  {
    var r := SanitizeFilename(name);
    var rr := SanitizeFilename(r);
    assert |rr| == |r|;
    forall i | 0 <= i < |r| ensures rr[i] == r[i] {
      assert Allowed(r[i]);
    }
  }

  // ---------------------------------------------------------------------------
  // formatRedditComments

  datatype RedditComment = RedditComment(author: string, score: int, body: string, replies: seq<RedditComment>)

  /** `'  '.repeat(depth)`. */
  function Pad(depth: nat): (r: string)
    ensures |r| == 2 * depth && forall i :: 0 <= i < |r| ==> r[i] == ' '
  {
    if depth == 0 then [] else "  " + Pad(depth - 1)
  }

  /** `${indent}**${comment.author}** (${comment.score} points):` and its line break. */
  function CommentLine(c: RedditComment, depth: nat): string
  {
    Pad(depth) + "* " + "**" + c.author + "** (" + IntToString(c.score) + " points):\n"
  }

  /** The comment body one level deeper, every line break followed by the same pad. */
  function CommentBody(c: RedditComment, depth: nat): string
  {
    Pad(depth + 1) + ReplaceAll(c.body, "\n", "\n" + Pad(depth + 1)) + "\n\n"
  }

  /** The header line and the indented body of one comment, without its replies. */
  function Entry(c: RedditComment, depth: nat): string
  {
    CommentLine(c, depth) + CommentBody(c, depth)
  }

  /** The Markdown of a comment list at a depth: each comment, then its replies one level
      deeper, then its siblings. */
  function RenderComments(cs: seq<RedditComment>, depth: nat): string
    decreases cs
  {
    if cs == [] then ""
    else Entry(cs[0], depth) + Replies(cs[0], depth) + RenderComments(cs[1..], depth)
  }

  /** The replies of a comment, rendered one level deeper when there are any. */
  function Replies(c: RedditComment, depth: nat): string
    decreases c
  {
    if |c.replies| > 0 then RenderComments(c.replies, depth + 1) else ""
  }

  /** The text the `forEach` callback appends for one comment. */
  function Rendered(c: RedditComment, depth: nat): string
  {
    Entry(c, depth) + Replies(c, depth)
  }

  /** Appending the callback's text for each comment in turn renders the list. */
  lemma {:induction false} RenderedConcat(cs: seq<RedditComment>, texts: seq<string>, depth: nat)
    requires |texts| == |cs|
    requires forall k :: 0 <= k < |cs| ==> texts[k] == Rendered(cs[k], depth)
    ensures Concat(texts) == RenderComments(cs, depth)
    decreases cs
  {
    if cs != [] {
      RenderedConcat(cs[1..], texts[1..], depth);
      Assoc3(Entry(cs[0], depth), Replies(cs[0], depth), RenderComments(cs[1..], depth));
    }
  }

  /** The `forEach` callback of `formatRedditComments`: the header line, the indented body
      and, when there are replies, the replies one level deeper. */
  method FormatComment(comment: RedditComment, depth: nat) returns (text: string)
    ensures text == Rendered(comment, depth)
    decreases comment
  {
    text := CommentLine(comment, depth);
    text := text + CommentBody(comment, depth);
    if |comment.replies| > 0 {
      var nested := FormatRedditComments(comment.replies, depth + 1);
      text := text + nested;
    } else {
      EmptyRight(text);
    }
  }

  /** The callback's text for each comment of a list. */
  function Texts(cs: seq<RedditComment>, depth: nat): (r: seq<string>)
    ensures |r| == |cs| && forall k :: 0 <= k < |cs| ==> r[k] == Rendered(cs[k], depth)
  {
    seq(|cs|, k requires 0 <= k < |cs| => Rendered(cs[k], depth))
  }

  /** One more comment adds its callback text at the end. */
  lemma TextsSnoc(cs: seq<RedditComment>, i: nat, depth: nat)
    requires i < |cs|
    ensures Texts(cs[..i + 1], depth) == Texts(cs[..i], depth) + [Rendered(cs[i], depth)]
  {
    var a, b := Texts(cs[..i + 1], depth), Texts(cs[..i], depth) + [Rendered(cs[i], depth)];
    assert |a| == |b|;
    forall k | 0 <= k < |a| ensures a[k] == b[k] {
      if k < i {
        assert cs[..i + 1][k] == cs[..i][k];
      }
    }
  }

  /** `formatRedditComments`: the callback's text for each comment, in order. */
  method FormatRedditComments(comments: seq<RedditComment>, depth: nat) returns (markdown: string)
    ensures markdown == RenderComments(comments, depth)
    decreases comments
  {
    markdown := "";
    var i := 0;
    while i < |comments|
      invariant 0 <= i <= |comments|
      invariant markdown == Concat(Texts(comments[..i], depth))
    {
      var text := FormatComment(comments[i], depth);
      TextsSnoc(comments, i, depth);
      ConcatSnoc(Texts(comments[..i], depth), text);
      markdown := markdown + text;
      i := i + 1;
    }
    assert comments[..i] == comments;
    RenderedConcat(comments, Texts(comments, depth), depth);
  }

  /** The comments in the order they are rendered, each with its depth: pre-order. */
  function Preorder(cs: seq<RedditComment>, depth: nat): seq<(RedditComment, nat)>
    decreases cs
  {
    if cs == [] then []
    else [(cs[0], depth)] + Preorder(cs[0].replies, depth + 1) + Preorder(cs[1..], depth)
  }

  function Entries(ps: seq<(RedditComment, nat)>): (r: seq<string>)
    ensures |r| == |ps|
  {
    seq(|ps|, i requires 0 <= i < |ps| => Entry(ps[i].0, ps[i].1))
  }

  lemma EntriesAppend(a: seq<(RedditComment, nat)>, b: seq<(RedditComment, nat)>)
    ensures Entries(a + b) == Entries(a) + Entries(b)
  {
  }

  /** The rendering is the entries of the comments in pre-order, each at its own depth. */
  lemma {:induction false} RenderIsPreorder(cs: seq<RedditComment>, depth: nat)
    ensures RenderComments(cs, depth) == Concat(Entries(Preorder(cs, depth)))
    decreases cs
  {
    if cs != [] {
      var c := cs[0];
      var head := [(c, depth)];
      var down := Preorder(c.replies, depth + 1);
      var across := Preorder(cs[1..], depth);
      RenderIsPreorder(c.replies, depth + 1);
      RenderIsPreorder(cs[1..], depth);
      if |c.replies| == 0 {
        assert Concat(Entries(down)) == "";
      }
      assert Replies(c, depth) == Concat(Entries(down));
      assert Preorder(cs, depth) == head + down + across;
      EntriesAppend(head + down, across);
      EntriesAppend(head, down);
      ConcatAppend(Entries(head) + Entries(down), Entries(across));
      ConcatAppend(Entries(head), Entries(down));
      assert Entries(head) == [Entry(c, depth)];
      assert Concat([Entry(c, depth)]) == Entry(c, depth) + Concat([]);
    }
  }

  /** A line break at i of r is followed by the indentation pad. */
  predicate BreakIndented(r: string, i: int, pad: string)
    requires 0 <= i < |r|
  {
    r[i] == '\n' ==> StartsWith(r[i..], "\n" + pad)
  }

  predicate AllBreaksIndented(r: string, pad: string)
  {
    forall i :: 0 <= i < |r| ==> BreakIndented(r, i, pad)
  }

  /** Replacing each line feed by a line feed and a pad indents every line after the first. */
  lemma {:induction false} IndentedLines(body: string, pad: string)
    requires forall i :: 0 <= i < |pad| ==> pad[i] != '\n'
    ensures AllBreaksIndented(ReplaceAll(body, "\n", "\n" + pad), pad)
    decreases |body|
  {
    var r := ReplaceAll(body, "\n", "\n" + pad);
    if body != [] {
      if StartsWith(body, "\n") {
        var rest := ReplaceAll(body[1..], "\n", "\n" + pad);
        IndentedLines(body[1..], pad);
        var k := |pad| + 1;
        assert r == ("\n" + pad) + rest;
        forall i | 0 <= i < |r| ensures BreakIndented(r, i, pad) {
          if i == 0 {
            assert r[..k] == "\n" + pad;
          } else if i < k {
            assert r[i] == pad[i - 1];
          } else {
            assert r[i] == rest[i - k];
            assert r[i..] == rest[i - k..];
            assert BreakIndented(rest, i - k, pad);
          }
        }
      } else {
        var rest := ReplaceAll(body[1..], "\n", "\n" + pad);
        IndentedLines(body[1..], pad);
        assert r == [body[0]] + rest;
        forall i | 0 <= i < |r| ensures BreakIndented(r, i, pad) {
          if i == 0 {
            assert r[0] == body[0] && body[0] != '\n';
          } else {
            assert r[i] == rest[i - 1];
            assert r[i..] == rest[i - 1..];
            assert BreakIndented(rest, i - 1, pad);
          }
        }
      }
    }
  }

  /** Every line of a rendered comment body is indented one level below its header. */
  lemma BodyIndented(c: RedditComment, depth: nat)
    ensures AllBreaksIndented(ReplaceAll(c.body, "\n", "\n" + Pad(depth + 1)), Pad(depth + 1))
  {
    IndentedLines(c.body, Pad(depth + 1));
  }

  // ---------------------------------------------------------------------------
  // downloadExtractedAsMarkdown

  /** A metadata value as `${value}` prints it. */
  datatype MetaValue = Text(text: string) | Number(number: int) | Undefined

  function Show(v: MetaValue): string
  {
    match v
    case Text(s) => s
    case Number(n) => IntToString(n)
    case Undefined => "undefined"
  }

  /** JavaScript truthiness of a metadata value. */
  predicate Truthy(v: MetaValue)
  {
    match v
    case Text(s) => s != []
    case Number(n) => n != 0
    case Undefined => false
  }

  /** The metadata object as its entries, in enumeration order. */
  type Metadata = seq<(string, MetaValue)>

  /** `metadata[key]`. */
  function Lookup(meta: Metadata, key: string): (v: MetaValue)
    ensures v != Undefined ==> exists k :: 0 <= k < |meta| && meta[k] == (key, v)
  {
    if meta == [] then Undefined
    else if meta[0].0 == key then meta[0].1
    else
      var v := Lookup(meta[1..], key);
      assert v != Undefined ==> exists k :: 0 <= k < |meta| && meta[k] == (key, v) by {
        if v != Undefined {
          var k :| 0 <= k < |meta[1..]| && meta[1..][k] == (key, v);
          assert meta[k + 1] == (key, v);
        }
      }
      v
  }

  /** The value looked up is that of the first entry with the key (object keys are unique,
      so of the only one), and `undefined` when no entry has it. */
  lemma {:induction false} LookupFirst(meta: Metadata, key: string)
    ensures (forall k :: 0 <= k < |meta| ==> meta[k].0 != key) ==> Lookup(meta, key) == Undefined
    ensures forall k :: 0 <= k < |meta| && meta[k].0 == key && (forall j :: 0 <= j < k ==> meta[j].0 != key) ==>
      Lookup(meta, key) == meta[k].1
  {
    if meta != [] && meta[0].0 != key {
      LookupFirst(meta[1..], key);
      if forall k :: 0 <= k < |meta| ==> meta[k].0 != key {
        forall k | 0 <= k < |meta[1..]| ensures meta[1..][k].0 != key {
          assert meta[1..][k] == meta[k + 1];
        }
      }
      forall k | 0 <= k < |meta| && meta[k].0 == key && (forall j :: 0 <= j < k ==> meta[j].0 != key)
        ensures Lookup(meta, key) == meta[k].1
      {
        assert meta[1..][k - 1] == meta[k];
        forall j | 0 <= j < k - 1 ensures meta[1..][j].0 != key {
          assert meta[1..][j] == meta[j + 1];
        }
      }
    }
  }

  datatype ExtractedContent =
    | YouTube(metadata: Metadata, transcript: string)
    | Reddit(metadata: Metadata, postBody: string, comments: seq<RedditComment>)
    | Generic(metadata: Metadata)

  function MetadataLine(e: (string, MetaValue)): string
  {
    "* **" + e.0 + ":** " + Show(e.1) + "\n"
  }

  predicate NotTitle(e: (string, MetaValue))
  {
    e.0 != "title"
  }

  /** The metadata list: one line per entry other than the title, in order. */
  function MetadataLines(meta: Metadata): (r: seq<string>)
  {
    var kept := Filter(meta, NotTitle);
    seq(|kept|, i requires 0 <= i < |kept| => MetadataLine(kept[i]))
  }

  /** Every listed line belongs to a non-title entry, and every non-title entry is listed. */
  lemma MetadataListed(meta: Metadata)
    ensures forall j :: 0 <= j < |MetadataLines(meta)| ==>
      exists k :: 0 <= k < |meta| && meta[k].0 != "title" && MetadataLines(meta)[j] == MetadataLine(meta[k])
    ensures forall k :: 0 <= k < |meta| && meta[k].0 != "title" ==> MetadataLine(meta[k]) in MetadataLines(meta)
  {
    var kept := Filter(meta, NotTitle);
    var lines := MetadataLines(meta);
    forall j | 0 <= j < |lines|
      ensures exists k :: 0 <= k < |meta| && meta[k].0 != "title" && lines[j] == MetadataLine(meta[k])
    {
      assert kept[j] in meta && NotTitle(kept[j]);
      var k :| 0 <= k < |meta| && meta[k] == kept[j];
      assert lines[j] == MetadataLine(meta[k]);
    }
    forall k | 0 <= k < |meta| && meta[k].0 != "title" ensures MetadataLine(meta[k]) in lines {
      assert NotTitle(meta[k]);
      assert meta[k] in kept;
      var j :| 0 <= j < |kept| && kept[j] == meta[k];
      assert lines[j] == MetadataLine(meta[k]);
    }
  }

  /** `## Transcript\n\n${data.transcript}\n`. */
  function TranscriptSection(transcript: string): string
  {
    "## Transcript\n\n" + transcript + "\n"
  }

  /** `## Post Body\n\n${data.postBody}\n\n---\n\n## Comments\n\n`. */
  function PostSection(postBody: string): string
  {
    "## Post Body\n\n" + postBody + "\n\n---\n\n## Comments\n\n"
  }

  /** `## Description\n\n${data.metadata.description || 'N/A'}\n`. */
  function DescriptionSection(meta: Metadata): string
  {
    var description := Lookup(meta, "description");
    "## Description\n\n" + (if Truthy(description) then Show(description) else "N/A") + "\n"
  }

  /** The section that follows the metadata, chosen by the content type. */
  function TypeSection(data: ExtractedContent): string
  {
    match data
    case YouTube(_, transcript) => TranscriptSection(transcript)
    case Reddit(_, postBody, comments) => PostSection(postBody) + RenderComments(comments, 0)
    case Generic(meta) => DescriptionSection(meta)
  }

  function ExtractedHead(data: ExtractedContent): string
  {
    "# " + Show(Lookup(data.metadata, "title")) + "\n\n" + "## Metadata\n\n"
  }

  /** The Markdown document of extracted content. */
  function ExtractedDocument(data: ExtractedContent): string
  {
    ExtractedHead(data) + Concat(MetadataLines(data.metadata)) + "\n---\n\n" + TypeSection(data)
  }

  /** Adding one entry to the metadata adds its line, unless it is the title. */
  lemma MetadataLinesSnoc(meta: Metadata, e: (string, MetaValue))
    ensures Concat(MetadataLines(meta + [e]))
      == Concat(MetadataLines(meta)) + (if NotTitle(e) then MetadataLine(e) else "")
  {
    FilterAppend(meta, [e], NotTitle);
    var before := Filter(meta, NotTitle);
    if NotTitle(e) {
      assert Filter([e], NotTitle) == [e];
      assert Filter(meta + [e], NotTitle) == before + [e];
      assert MetadataLines(meta + [e]) == MetadataLines(meta) + [MetadataLine(e)];
      ConcatSnoc(MetadataLines(meta), MetadataLine(e));
    } else {
      assert Filter([e], NotTitle) == [];
      assert Filter(meta + [e], NotTitle) == before;
    }
  }

  /** The metadata loop's text after one more entry: its line, or nothing for the title. */
  lemma MetadataStep(head: string, meta: Metadata, i: nat)
    requires i < |meta|
    ensures NotTitle(meta[i]) ==>
      head + Concat(MetadataLines(meta[..i])) + MetadataLine(meta[i]) == head + Concat(MetadataLines(meta[..i + 1]))
    ensures !NotTitle(meta[i]) ==>
      head + Concat(MetadataLines(meta[..i])) == head + Concat(MetadataLines(meta[..i + 1]))
  {
    assert meta[..i + 1] == meta[..i] + [meta[i]];
    MetadataLinesSnoc(meta[..i], meta[i]);
    var listed := Concat(MetadataLines(meta[..i]));
    Assoc3(head, listed, MetadataLine(meta[i]));
    EmptyRight(listed);
  }

  /** The text `downloadExtractedAsMarkdown` builds. */
  method ExtractedMarkdown(data: ExtractedContent) returns (markdownContent: string)
    ensures markdownContent == ExtractedDocument(data)
  {
    var meta := data.metadata;
    markdownContent := "# " + Show(Lookup(meta, "title")) + "\n\n";
    markdownContent := markdownContent + "## Metadata\n\n";
    ghost var head := markdownContent;
    var i := 0;
    while i < |meta|
      invariant 0 <= i <= |meta|
      invariant markdownContent == head + Concat(MetadataLines(meta[..i]))
    {
      var entry := meta[i];
      MetadataStep(head, meta, i);
      if entry.0 != "title" {
        markdownContent := markdownContent + MetadataLine(entry);
      }
      i := i + 1;
    }
    assert meta[..i] == meta;
    markdownContent := markdownContent + "\n---\n\n";
    match data {
      case YouTube(_, transcript) =>
        markdownContent := markdownContent + TranscriptSection(transcript);
      case Reddit(_, postBody, comments) =>
        ghost var before := markdownContent;
        markdownContent := markdownContent + PostSection(postBody);
        var rendered := FormatRedditComments(comments, 0);
        markdownContent := markdownContent + rendered;
        Assoc3(before, PostSection(postBody), rendered);
      case Generic(_) =>
        markdownContent := markdownContent + DescriptionSection(meta);
    }
  }

  /** The document opens with the title heading. */
  lemma ExtractedTitle(data: ExtractedContent)
    ensures StartsWith(ExtractedDocument(data), "# " + Show(Lookup(data.metadata, "title")) + "\n")
  {
    var line := "# " + Show(Lookup(data.metadata, "title")) + "\n";
    var doc := ExtractedDocument(data);
    assert doc[..|line|] == line;
  }

  /** Whatever precedes it, a string ends with what was appended last. */
  lemma EndsWithAppend(a: string, p: string)
    ensures |a + p| >= |p| && (a + p)[|a + p| - |p|..] == p
  {
  }

  /** Generic content without a usable description ends with the `N/A` placeholder. */
  lemma GenericFallback(meta: Metadata)
    requires !Truthy(Lookup(meta, "description"))
    ensures var doc := ExtractedDocument(Generic(meta));
      |doc| >= 20 && doc[|doc| - 20..] == "## Description\n\nN/A\n"
  {
    var data := Generic(meta);
    var section := "## Description\n\n" + "N/A" + "\n";
    assert DescriptionSection(meta) == section;
    assert TypeSection(data) == section;
    var front := ExtractedHead(data) + Concat(MetadataLines(meta)) + "\n---\n\n";
    assert ExtractedDocument(data) == front + section;
    EndsWithAppend(front, section);
  }

  /** Generic content with a description shows it in the last section. */
  lemma GenericDescription(meta: Metadata)
    requires Truthy(Lookup(meta, "description"))
    ensures var doc := ExtractedDocument(Generic(meta));
      var tail := "## Description\n\n" + Show(Lookup(meta, "description")) + "\n";
      |doc| >= |tail| && doc[|doc| - |tail|..] == tail
  {
    var data := Generic(meta);
    var tail := "## Description\n\n" + Show(Lookup(meta, "description")) + "\n";
    assert TypeSection(data) == DescriptionSection(meta) == tail;
    var front := ExtractedHead(data) + Concat(MetadataLines(meta)) + "\n---\n\n";
    EndsWithAppend(front, tail);
  }
}
