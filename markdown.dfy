/** MarkdownBuilder: builds a GitLab comment in markdown by appending to a
    text buffer. */
module Markdown {

  class MarkdownBuilder {
    /** The text appended so far. */
    var text: string

    /** A new builder holds no text. */
    constructor()
      ensures text == ""
    {
      text := "";
    }

    /** Starts a list item with "- ". */
    method StartListItem() returns (self: MarkdownBuilder)
      modifies this
      ensures self == this && text == old(text) + "- "
    {
      text := text + "- ";
      self := this;
    }

    /** Ends a list item with a line break. */
    method EndListItem() returns (self: MarkdownBuilder)
      modifies this
      ensures self == this && text == old(text) + "\n"
    {
      self := AddLineBreak();
    }

    /** Appends `t` verbatim. */
    method AddText(t: string) returns (self: MarkdownBuilder)
      modifies this
      ensures self == this && text == old(text) + t
    {
      text := text + t;
      self := this;
    }

    method AddLineBreak() returns (self: MarkdownBuilder)
      modifies this
      ensures self == this && text == old(text) + "\n"
    {
      text := text + "\n";
      self := this;
    }

    /** toString: the text built so far; reading it changes nothing. */
    function ToString(): (s: string)
      reads this
      ensures s == text
    {
      text
    }
  }

  /** A list item holding `t`, built on a fresh builder: exactly "- ", then
      `t` verbatim, then a line break. */
  method ListItem(t: string) returns (s: string)
    ensures |s| == |t| + 3
    ensures s[..2] == "- " && s[2..|s| - 1] == t && s[|s| - 1] == '\n'
  {
    var builder := new MarkdownBuilder();
    var b := builder.StartListItem();
    b := b.AddText(t);
    b := b.EndListItem();
    s := builder.ToString();
    assert s == "- " + t + "\n";
  }

  /** Every operation keeps what was built before as a prefix: the text is
      append-only. */
  method AppendOnly(builder: MarkdownBuilder, t: string) returns (before: string, after: string)
    modifies builder
    ensures before == old(builder.text) && after == builder.text
    ensures before <= after && after[|before|..] == "- " + t + "\n"
  {
    before := builder.ToString();
    var b := builder.StartListItem();
    b := b.AddText(t);
    b := b.AddLineBreak();
    after := builder.ToString();
    assert after == before + ("- " + t + "\n");
  }
}
