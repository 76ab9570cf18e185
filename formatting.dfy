/**
 The export text of a view in its two hand-written modes: `markdown`, a
 header followed by one block of lines per record, and `simple`, one line per
 record holding the title and, when there is one, the level in parentheses.
 */
module Formatting {
  import opened Store

  datatype Mode = Markdown | Simple

  const Header: string := "个人经历记录\n\n"

  /** One line of the markdown text: a tag, a field, a line break. */
  function Line(tag: string, text: string): string {
    tag + text + "\n"
  }

  /** The line of an optional field: present only when the field is not empty. */
  function Optional(tag: string, text: string): string {
    if text != "" then Line(tag, text) else ""
  }

  /** The block a record contributes to the markdown text: its title line first, a blank line last. */
  function MarkdownBlock(r: Record): (b: string)
    ensures |b| >= |r.title| + 2 && b[..|r.title| + 2] == Line(" ", r.title)
    ensures b[|b| - 1] == '\n'
  {
    Line(" ", r.title)
    + Line("类别: ", r.category)
    + Optional("级别: ", r.level)
    + Optional("机构: ", r.organization)
    + Optional("备注: ", r.notes)
    + "\n"
  }

  function MarkdownBlocks(s: seq<Record>): (t: string)
    ensures t == "" <==> s == []
  {
    if s == [] then "" else MarkdownBlock(s[0]) + MarkdownBlocks(s[1..])
  }

  /** The markdown text: the header, and nothing after it exactly when there are no records. */
  function MarkdownText(s: seq<Record>): (t: string)
    ensures |t| >= |Header| && t[..|Header|] == Header
    ensures t == Header <==> s == []
  {
    Header + MarkdownBlocks(s)
  }

  /**
   The line a record contributes to the simple text: the title first, a line
   break last, and something in between exactly when the level is not empty.
   */
  function SimpleLine(r: Record): (line: string)
    ensures |line| > |r.title| && line[..|r.title|] == r.title
    ensures line[|line| - 1] == '\n'
    ensures r.level == "" <==> |line| == |r.title| + 1
  {
    r.title + (if r.level != "" then " (" + r.level + ")" else "") + "\n"
  }

  /** The simple text: at least one character per record, and empty exactly when there are none. */
  function SimpleText(s: seq<Record>): (t: string)
    ensures |t| >= |s|
    ensures t == "" <==> s == []
  {
    if s == [] then "" else SimpleLine(s[0]) + SimpleText(s[1..])
  }

  // ---------------------------------------------------------------------------
  // Composition: the text of a view is the texts of its parts, in order

  lemma {:induction false} MarkdownBlocksAppend(a: seq<Record>, b: seq<Record>)
    ensures MarkdownBlocks(a + b) == MarkdownBlocks(a) + MarkdownBlocks(b)
  {
    if a == [] {
      assert a + b == b;
    } else {
      assert (a + b)[0] == a[0];
      assert (a + b)[1..] == a[1..] + b;
      MarkdownBlocksAppend(a[1..], b);
    }
  }

  lemma {:induction false} SimpleTextAppend(a: seq<Record>, b: seq<Record>)
    ensures SimpleText(a + b) == SimpleText(a) + SimpleText(b)
  {
    if a == [] {
      assert a + b == b;
    } else {
      assert (a + b)[0] == a[0];
      assert (a + b)[1..] == a[1..] + b;
      SimpleTextAppend(a[1..], b);
    }
  }

  /** The k-th record's line sits between the lines of the records before it and after it. */
  lemma SimpleLineAt(s: seq<Record>, k: nat)
    requires k < |s|
    ensures SimpleText(s) == SimpleText(s[..k]) + SimpleLine(s[k]) + SimpleText(s[k + 1..])
  {
    var before, after := s[..k], s[k + 1..];
    SplitAt(s, k);
    SimpleTextAppend(before + [s[k]], after);
    SimpleTextAppend(before, [s[k]]);
    SimpleTextSingle(s[k]);
  }

  lemma SimpleTextSingle(r: Record)
    ensures SimpleText([r]) == SimpleLine(r)
  {
    assert SimpleText([r]) == SimpleLine(r) + SimpleText([]);
  }

  lemma MarkdownBlocksSingle(r: Record)
    ensures MarkdownBlocks([r]) == MarkdownBlock(r)
  {
    assert MarkdownBlocks([r]) == MarkdownBlock(r) + MarkdownBlocks([]);
  }

  /** The k-th record's block sits between the blocks of the records before it and after it. */
  lemma MarkdownBlockAt(s: seq<Record>, k: nat)
    requires k < |s|
    ensures MarkdownText(s) == Header + (MarkdownBlocks(s[..k]) + MarkdownBlock(s[k]) + MarkdownBlocks(s[k + 1..]))
  {
    var before, after := s[..k], s[k + 1..];
    SplitAt(s, k);
    MarkdownBlocksAppend(before + [s[k]], after);
    MarkdownBlocksAppend(before, [s[k]]);
    MarkdownBlocksSingle(s[k]);
  }

  // ---------------------------------------------------------------------------
  // Line structure

  function Newlines(t: string): nat {
    if t == [] then 0 else (if t[0] == '\n' then 1 else 0) + Newlines(t[1..])
  }

  lemma {:induction false} NewlinesAppend(a: string, b: string)
    ensures Newlines(a + b) == Newlines(a) + Newlines(b)
  {
    if a == [] {
      assert a + b == b;
    } else {
      assert (a + b)[0] == a[0];
      assert (a + b)[1..] == a[1..] + b;
      NewlinesAppend(a[1..], b);
    }
  }

  predicate OneLine(t: string) {
    '\n' !in t
  }

  lemma {:induction false} NoNewlines(t: string)
    requires OneLine(t)
    ensures Newlines(t) == 0
  {
    if t != [] {
      assert t[0] in t;
      assert forall c :: c in t[1..] ==> c in t;
      NoNewlines(t[1..]);
    }
  }

  /** A title line of its own per record of a view whose titles and levels hold no line break. */
  lemma {:induction false} SimpleTextLines(s: seq<Record>)
    requires forall x :: x in s ==> OneLine(x.title) && OneLine(x.level)
    ensures Newlines(SimpleText(s)) == |s|
  {
    if s != [] {
      var r := s[0];
      assert r in s;
      var mid := if r.level != "" then " (" + r.level + ")" else "";
      assert OneLine(mid) by {
        if r.level != "" {
          assert forall c :: c in mid ==> c in " (" || c in r.level || c in ")";
        }
      }
      NoNewlines(r.title);
      NoNewlines(mid);
      NewlinesAppend(r.title, mid);
      NewlinesAppend(r.title + mid, "\n");
      assert SimpleLine(r) == r.title + mid + "\n";
      assert forall x :: x in s[1..] ==> x in s;
      SimpleTextLines(s[1..]);
      NewlinesAppend(SimpleLine(r), SimpleText(s[1..]));
    }
  }

  /** How many lines a record's markdown block has: title, category, the non-empty optional fields, the blank line. */
  function BlockLines(r: Record): nat {
    3 + (if r.level != "" then 1 else 0)
      + (if r.organization != "" then 1 else 0)
      + (if r.notes != "" then 1 else 0)
  }

  function BlocksLines(s: seq<Record>): nat {
    if s == [] then 0 else BlockLines(s[0]) + BlocksLines(s[1..])
  }

  /** A markdown line holds the line breaks of its field and its own. */
  lemma LineLines(tag: string, text: string)
    requires OneLine(tag)
    ensures Newlines(Line(tag, text)) == Newlines(text) + 1
  {
    NoNewlines(tag);
    NewlinesAppend(tag, text);
    NewlinesAppend(tag + text, "\n");
    assert Newlines("\n") == 1 + Newlines("");
  }

  lemma OptionalLines(tag: string, text: string)
    requires OneLine(tag)
    ensures Newlines(Optional(tag, text)) == (if text != "" then 1 else 0) + Newlines(text)
  {
    if text != "" {
      LineLines(tag, text);
    }
  }

  /**
   With a single-line title, category, level and organization, a record's
   block has its title and category lines, one line per non-empty level,
   organization and notes, the blank line, and the line breaks inside the notes.
   */
  lemma MarkdownBlockLines(r: Record)
    requires OneLine(r.title) && OneLine(r.category) && OneLine(r.level) && OneLine(r.organization)
    ensures Newlines(MarkdownBlock(r)) == BlockLines(r) + Newlines(r.notes)
  {
    var t := Line(" ", r.title);
    var c := Line("类别: ", r.category);
    var lv := Optional("级别: ", r.level);
    var org := Optional("机构: ", r.organization);
    var nt := Optional("备注: ", r.notes);
    NoNewlines(r.title);
    NoNewlines(r.category);
    NoNewlines(r.level);
    NoNewlines(r.organization);
    LineLines(" ", r.title);
    LineLines("类别: ", r.category);
    OptionalLines("级别: ", r.level);
    OptionalLines("机构: ", r.organization);
    OptionalLines("备注: ", r.notes);
    NewlinesAppend(t, c);
    NewlinesAppend(t + c, lv);
    NewlinesAppend(t + c + lv, org);
    NewlinesAppend(t + c + lv + org, nt);
    NewlinesAppend(t + c + lv + org + nt, "\n");
    assert Newlines("\n") == 1 + Newlines("");
  }

  /** The line breaks inside the notes of the records. */
  function NotesBreaks(s: seq<Record>): nat {
    if s == [] then 0 else Newlines(s[0].notes) + NotesBreaks(s[1..])
  }

  /**
   With a single-line title, category, level and organization in every
   record, the markdown text has the header's two lines and then, per record,
   its title and category lines, one line per non-empty level, organization
   and notes, and the blank line, plus the line breaks inside the notes.
   */
  lemma {:induction false} MarkdownTextLines(s: seq<Record>)
    requires forall x :: x in s ==> OneLine(x.title) && OneLine(x.category)
    requires forall x :: x in s ==> OneLine(x.level) && OneLine(x.organization)
    ensures Newlines(MarkdownText(s)) == 2 + BlocksLines(s) + NotesBreaks(s)
    decreases |s|
  {
    if s == [] {
      assert MarkdownText(s) == Header;
    } else {
      assert s[0] in s;
      assert forall x :: x in s[1..] ==> x in s;
      MarkdownBlockLines(s[0]);
      MarkdownTextLines(s[1..]);
      NewlinesAppend(Header, MarkdownBlocks(s[1..]));
      NewlinesAppend(MarkdownBlock(s[0]), MarkdownBlocks(s[1..]));
      NewlinesAppend(Header, MarkdownBlocks(s));
    }
  }

  predicate EndsWithNewline(t: string) {
    |t| >= 1 && t[|t| - 1] == '\n'
  }

  lemma AppendEndsWithNewline(a: string, b: string)
    requires EndsWithNewline(a) && (b == "" || EndsWithNewline(b))
    ensures EndsWithNewline(a + b)
  {
    if b == "" {
      assert a + b == a;
    } else {
      assert (a + b)[|a + b| - 1] == b[|b| - 1];
    }
  }

  /** Every markdown block opens with the title line and the category line and closes with a blank line. */
  lemma MarkdownBlockShape(r: Record)
    ensures var b := MarkdownBlock(r);
      var opening := Line(" ", r.title) + Line("类别: ", r.category);
      && |b| >= |opening| + 1
      && b[..|opening|] == opening
      && b[|b| - 2..] == "\n\n"
  {
    var b := MarkdownBlock(r);
    var t, c := Line(" ", r.title), Line("类别: ", r.category);
    var o1, o2, o3 := Optional("级别: ", r.level), Optional("机构: ", r.organization), Optional("备注: ", r.notes);
    var opening := t + c;
    var body := opening + o1 + o2 + o3;
    assert b == body + "\n";
    assert EndsWithNewline(c);
    AppendEndsWithNewline(t, c);
    AppendEndsWithNewline(opening, o1);
    AppendEndsWithNewline(opening + o1, o2);
    AppendEndsWithNewline(opening + o1 + o2, o3);
    Associative(opening, o1, o2);
    Associative(opening, o1 + o2, o3);
    Associative(opening, o1 + o2 + o3, "\n");
    assert b == opening + (o1 + o2 + o3 + "\n");
    assert b[|b| - 2..] == [body[|body| - 1], '\n'];
  }

  // ---------------------------------------------------------------------------
  // The export text, built piece by piece as the application builds it

  method FormatOutput(s: seq<Record>, mode: Mode) returns (output: string)
    ensures mode == Markdown ==> output == MarkdownText(s)
    ensures mode == Simple ==> output == SimpleText(s)
  {
    match mode
    case Markdown => output := FormatMarkdown(s);
    case Simple => output := FormatSimple(s);
  }

  lemma Associative(a: string, b: string, c: string)
    ensures (a + b) + c == a + (b + c)
  {
  }

  /** The text of the first i + 1 records is the text of the first i and then the line of record i. */
  lemma SimpleTextExtend(s: seq<Record>, i: nat)
    requires i < |s|
    ensures SimpleText(s[..i + 1]) == SimpleText(s[..i]) + SimpleLine(s[i])
  {
    assert s[..i + 1] == s[..i] + [s[i]];
    SimpleTextAppend(s[..i], [s[i]]);
    SimpleTextSingle(s[i]);
  }

  /** The markdown text of the first i + 1 records is that of the first i and then the block of record i. */
  lemma MarkdownTextExtend(s: seq<Record>, i: nat)
    requires i < |s|
    ensures MarkdownText(s[..i + 1]) == MarkdownText(s[..i]) + MarkdownBlock(s[i])
  {
    assert s[..i + 1] == s[..i] + [s[i]];
    MarkdownBlocksAppend(s[..i], [s[i]]);
    MarkdownBlocksSingle(s[i]);
    Associative(Header, MarkdownBlocks(s[..i]), MarkdownBlock(s[i]));
  }

  method FormatMarkdown(s: seq<Record>) returns (output: string)
    ensures output == MarkdownText(s)
  {
    output := Header;
    var i := 0;
    assert s[..0] == [];
    while i < |s|
      invariant 0 <= i <= |s|
      invariant output == MarkdownText(s[..i])
    {
      output := AppendMarkdownBlock(output, s[i]);
      MarkdownTextExtend(s, i);
      i := i + 1;
    }
    assert s[..i] == s;
  }

  /** One pass of the markdown loop: the record's lines appended to the text so far. */
  method AppendMarkdownBlock(output: string, r: Record) returns (extended: string)
    ensures extended == output + MarkdownBlock(r)
  {
    extended := output + Line(" ", r.title);
    ghost var block := Line(" ", r.title);
    extended := extended + Line("类别: ", r.category);
    Associative(output, block, Line("类别: ", r.category));
    block := block + Line("类别: ", r.category);
    if r.level != "" {
      extended := extended + Line("级别: ", r.level);
      Associative(output, block, Line("级别: ", r.level));
    } else {
      assert block + Optional("级别: ", r.level) == block;
    }
    block := block + Optional("级别: ", r.level);
    if r.organization != "" {
      extended := extended + Line("机构: ", r.organization);
      Associative(output, block, Line("机构: ", r.organization));
    } else {
      assert block + Optional("机构: ", r.organization) == block;
    }
    block := block + Optional("机构: ", r.organization);
    if r.notes != "" {
      extended := extended + Line("备注: ", r.notes);
      Associative(output, block, Line("备注: ", r.notes));
    } else {
      assert block + Optional("备注: ", r.notes) == block;
    }
    block := block + Optional("备注: ", r.notes);
    extended := extended + "\n";
    Associative(output, block, "\n");
  }

  method FormatSimple(s: seq<Record>) returns (output: string)
    ensures output == SimpleText(s)
  {
    output := "";
    var i := 0;
    assert s[..0] == [];
    while i < |s|
      invariant 0 <= i <= |s|
      invariant output == SimpleText(s[..i])
    {
      var r := s[i];
      ghost var before := output;
      output := output + r.title;
      ghost var mid := if r.level != "" then " (" + r.level + ")" else "";
      if r.level != "" {
        output := output + (" (" + r.level + ")");
      } else {
        assert output + mid == output;
      }
      Associative(before, r.title, mid);
      output := output + "\n";
      Associative(before, r.title + mid, "\n");
      assert output == before + SimpleLine(r);
      SimpleTextExtend(s, i);
      i := i + 1;
    }
    assert s[..i] == s;
  }
}
