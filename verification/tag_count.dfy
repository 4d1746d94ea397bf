/**
 Counting tags in the serialised feed. Every job contributes exactly one
 `<item>` and one `</item>`; because escaped fields contain no `<`, no text a
 job supplies can add another.
 */
module TagCount {
  import opened Escaping
  import opened RssFormat

  /** Number of positions of `s` at which `p` begins. */
  function Occurrences(s: string, p: string): nat
    decreases |s|
  {
    if |s| == 0 then 0 else (if p <= s then 1 else 0) + Occurrences(s[1..], p)
  }

  /** `s` contains no `<`. */
  predicate NoOpen(s: string) {
    forall i :: 0 <= i < |s| ==> s[i] != '<'
  }

  /** `t` starts with `<` and contains no other `<`: one tag, possibly followed
      by text without markup. */
  predicate OneTag(t: string) {
    |t| > 0 && t[0] == '<' && forall i :: 1 <= i < |t| ==> t[i] != '<'
  }

  const ItemTag: string := "<item>"
  const ItemEndTag: string := "</item>"

  // ---------------------------------------------------------------------------
  // Stepping over the pieces of a document
  // ---------------------------------------------------------------------------

  /** Appending nothing changes nothing. */
  lemma AppendEmpty(s: string)
    ensures s + [] == s
  {
  }

  /** Text without `<` holds no occurrence of a pattern that starts with `<`. */
  lemma {:induction false} SkipPlain(a: string, b: string, p: string)
    requires |p| > 0 && p[0] == '<'
    requires NoOpen(a)
    ensures Occurrences(a + b, p) == Occurrences(b, p)
    decreases |a|
  {
    if |a| == 0 {
      assert a + b == b;
    } else {
      assert (a + b)[0] == a[0];
      assert (a + b)[1..] == a[1..] + b;
      SkipPlain(a[1..], b, p);
    }
  }

  /** A tag that differs from `p` at position `k` adds no occurrence of `p`. */
  lemma SkipTag(t: string, b: string, p: string, k: nat)
    requires |p| > 0 && p[0] == '<'
    requires OneTag(t)
    requires 0 < k < |t| && k < |p| && t[k] != p[k]
    ensures Occurrences(t + b, p) == Occurrences(b, p)
  {
    var s := t + b;
    assert s[k] == t[k];
    assert !(p <= s);
    assert s[1..] == t[1..] + b;
    SkipPlain(t[1..], b, p);
  }

  /** A tag that begins with `p` adds exactly one occurrence of `p`. */
  lemma CountTag(t: string, b: string, p: string)
    requires |p| > 0 && p <= t
    requires OneTag(t)
    ensures Occurrences(t + b, p) == 1 + Occurrences(b, p)
  {
    var s := t + b;
    assert p <= s by {
      assert s[..|p|] == t[..|p|];
    }
    assert s[1..] == t[1..] + b;
    SkipPlain(t[1..], b, p);
  }

  /** A tag followed by text without `<` is still one tag. */
  lemma OneTagAppend(t: string, x: string)
    requires OneTag(t) && NoOpen(x)
    ensures OneTag(t + x)
  {
    var s := t + x;
    forall i | 1 <= i < |s|
      ensures s[i] != '<'
    {
      if i >= |t| {
        assert s[i] == x[i - |t|];
      }
    }
  }

  /** Escaped text contains no `<`. */
  lemma SanitizeNoOpen(s: string)
    ensures NoOpen(Sanitize(s))
  {
    SanitizeWellEscaped(s);
  }

  // ---------------------------------------------------------------------------
  // Item blocks
  // ---------------------------------------------------------------------------

  /** An element line followed by `rest`, cut into indentation, tags and text. */
  lemma ElementPieces(text: string, openTag: string, closeTag: string, rest: string)
    ensures FormatElement(text, openTag, closeTag) + rest ==
      "    " + ((openTag + text) + (closeTag + ("\n" + rest)))
  {
  }

  /** An item followed by `rest`, with the item's own concatenation regrouped. */
  lemma ItemPieces(title: string, link: string, rest: string)
    ensures FormatItem(title, link) + rest == ItemOpen + (title + (link + (ItemClose + rest)))
  {
  }

  /** The opening and closing lines of an item: indentation, then one tag. */
  lemma ItemLinesPieces(x: string)
    ensures ItemOpen + x == "  " + ("<item>\n" + x)
    ensures ItemClose + x == "  " + ("</item>\n" + x)
  {
    assert ItemOpen == "  " + "<item>\n";
    assert ItemClose == "  " + "</item>\n";
  }

  /** An item block followed by `rest`, cut into indentation, tags and text. */
  lemma ItemBlockPieces(job: Job, rest: string)
    ensures ItemBlock(job) + rest ==
      "  " + ("<item>\n" + (FormatElement(Sanitize(job.title), "<title>", "</title>")
      + (FormatElement(Sanitize(job.link), "<link>", "</link>") + ("  " + ("</item>\n" + rest)))))
  {
    var title := FormatElement(Sanitize(job.title), "<title>", "</title>");
    var link := FormatElement(Sanitize(job.link), "<link>", "</link>");
    ItemPieces(title, link, rest);
    ItemLinesPieces(rest);
    ItemLinesPieces(title + (link + (ItemClose + rest)));
  }

  /** The tags around the title and link of an item. */
  lemma ElementTags()
    ensures OneTag("<title>") && OneTag("</title>") && OneTag("<link>") && OneTag("</link>")
    ensures "<title>"[1] != ItemTag[1] && "<link>"[1] != ItemTag[1]
    ensures "</title>"[1] != ItemTag[1] && "</link>"[1] != ItemTag[1]
    ensures "<title>"[1] != ItemEndTag[1] && "<link>"[1] != ItemEndTag[1]
    ensures "</title>"[2] != ItemEndTag[2] && "</link>"[2] != ItemEndTag[2]
  {
  }

  /** One element line adds exactly the occurrences its tags add. */
  lemma ElementOccurrences(text: string, openTag: string, closeTag: string, rest: string,
                           p: string, k1: nat, k2: nat)
    requires |p| > 0 && p[0] == '<'
    requires OneTag(openTag) && OneTag(closeTag) && NoOpen(text)
    requires 0 < k1 < |openTag| && k1 < |p| && openTag[k1] != p[k1]
    requires 0 < k2 < |closeTag| && k2 < |p| && closeTag[k2] != p[k2]
    ensures Occurrences(FormatElement(text, openTag, closeTag) + rest, p) == Occurrences(rest, p)
  {
    ElementPieces(text, openTag, closeTag, rest);
    assert NoOpen("    ") && NoOpen("\n");
    OneTagAppend(openTag, text);
    SkipPlain("\n", rest, p);
    SkipTag(closeTag, "\n" + rest, p, k2);
    assert (openTag + text)[k1] == openTag[k1];
    SkipTag(openTag + text, closeTag + ("\n" + rest), p, k1);
    SkipPlain("    ", (openTag + text) + (closeTag + ("\n" + rest)), p);
  }

  /** The opening line of an item holds one `<item>` and no `</item>`. */
  lemma ItemOpenLineOccurrences(x: string, p: string)
    requires p == ItemTag || p == ItemEndTag
    ensures Occurrences("  " + ("<item>\n" + x), p) == (if p == ItemTag then 1 else 0) + Occurrences(x, p)
  {
    assert OneTag("<item>\n") && NoOpen("  ");
    if p == ItemTag {
      assert p <= "<item>\n";
      CountTag("<item>\n", x, p);
    } else {
      SkipTag("<item>\n", x, p, 1);
    }
    SkipPlain("  ", "<item>\n" + x, p);
  }

  /** The closing line of an item holds one `</item>` and no `<item>`. */
  lemma ItemCloseLineOccurrences(x: string, p: string)
    requires p == ItemTag || p == ItemEndTag
    ensures Occurrences("  " + ("</item>\n" + x), p) == (if p == ItemTag then 0 else 1) + Occurrences(x, p)
  {
    assert OneTag("</item>\n") && NoOpen("  ");
    if p == ItemTag {
      SkipTag("</item>\n", x, p, 1);
    } else {
      assert p <= "</item>\n";
      CountTag("</item>\n", x, p);
    }
    SkipPlain("  ", "</item>\n" + x, p);
  }

  /** One item block holds exactly one `<item>` and one `</item>`, whatever the
      job's title and link contain. */
  lemma ItemBlockOccurrences(job: Job, rest: string, p: string)
    requires p == ItemTag || p == ItemEndTag
    ensures Occurrences(ItemBlock(job) + rest, p) == 1 + Occurrences(rest, p)
  {
    var t := Sanitize(job.title);
    var l := Sanitize(job.link);
    SanitizeNoOpen(job.title);
    SanitizeNoOpen(job.link);
    ItemBlockPieces(job, rest);
    var r4 := "  " + ("</item>\n" + rest);
    var r3 := FormatElement(l, "<link>", "</link>") + r4;
    var r2 := FormatElement(t, "<title>", "</title>") + r3;
    ElementTags();
    ItemCloseLineOccurrences(rest, p);
    if p == ItemTag {
      ElementOccurrences(l, "<link>", "</link>", r4, p, 1, 1);
      ElementOccurrences(t, "<title>", "</title>", r3, p, 1, 1);
    } else {
      ElementOccurrences(l, "<link>", "</link>", r4, p, 1, 2);
      ElementOccurrences(t, "<title>", "</title>", r3, p, 1, 2);
    }
    ItemOpenLineOccurrences(r2, p);
  }

  /** `format_jobs` followed by any text adds exactly `|jobs|` of each item tag. */
  lemma {:induction false} FormatJobsOccurrences(jobs: seq<Job>, rest: string, p: string)
    requires p == ItemTag || p == ItemEndTag
    ensures Occurrences(FormatJobs(jobs) + rest, p) == |jobs| + Occurrences(rest, p)
    decreases |jobs|
  {
    if |jobs| == 0 {
      assert FormatJobs(jobs) + rest == rest;
    } else {
      assert FormatJobs(jobs) + rest == ItemBlock(jobs[0]) + (FormatJobs(jobs[1..]) + rest);
      ItemBlockOccurrences(jobs[0], FormatJobs(jobs[1..]) + rest, p);
      FormatJobsOccurrences(jobs[1..], rest, p);
    }
  }

  /** The item text of `format_jobs` holds exactly one `<item>` and one
      `</item>` per job. */
  lemma FormatJobsItemCount(jobs: seq<Job>, p: string)
    requires p == ItemTag || p == ItemEndTag
    ensures Occurrences(FormatJobs(jobs), p) == |jobs|
  {
    FormatJobsOccurrences(jobs, [], p);
    AppendEmpty(FormatJobs(jobs));
  }

  // ---------------------------------------------------------------------------
  // The whole document
  // ---------------------------------------------------------------------------

  /** The fixed tags of the header and footer, none of them an item tag. */
  lemma DocumentTags()
    ensures OneTag(XmlOpening) && OneTag(RssOpening) && OneTag(ChannelOpening)
    ensures OneTag(ChannelClosing) && OneTag(RssClosing)
    ensures OneTag("<title>") && OneTag("</title>\n") && OneTag("<link>") && OneTag("</link>\n")
    ensures NoOpen("  ") && OneTag(ItemTag) && OneTag(ItemEndTag)
    ensures "</title>\n"[1] == '/' && "</title>\n"[2] != 'i'
    ensures "</link>\n"[1] == '/' && "</link>\n"[2] != 'i'
  {
  }

  /** Where the fixed tags of the header and footer first differ from the
      item tags. */
  lemma DocumentTagsDiffer()
    ensures XmlOpening[1] != ItemTag[1] && XmlOpening[1] != ItemEndTag[1]
    ensures RssOpening[1] != ItemTag[1] && RssOpening[1] != ItemEndTag[1]
    ensures ChannelOpening[1] != ItemTag[1] && ChannelOpening[1] != ItemEndTag[1]
    ensures ChannelClosing[1] != ItemTag[1] && ChannelClosing[2] != ItemEndTag[2]
    ensures RssClosing[1] != ItemTag[1] && RssClosing[2] != ItemEndTag[2]
    ensures "</title>\n"[1] != ItemTag[1] && "</title>\n"[2] != ItemEndTag[2]
    ensures "</link>\n"[1] != ItemTag[1] && "</link>\n"[2] != ItemEndTag[2]
  {
  }

  /** A closing tag of the header or footer adds no item tag. */
  lemma SkipClosing(t: string, rest: string, p: string)
    requires p == ItemTag || p == ItemEndTag
    requires OneTag(t) && |t| > 2 && t[1] == '/' && t[2] != 'i'
    ensures Occurrences(t + rest, p) == Occurrences(rest, p)
  {
    if p == ItemTag {
      SkipTag(t, rest, p, 1);
    } else {
      SkipTag(t, rest, p, 2);
    }
  }

  /** The closing tags hold no item tag. */
  lemma FooterOccurrences(p: string)
    requires p == ItemTag || p == ItemEndTag
    ensures Occurrences(Footer(), p) == 0
  {
    DocumentTags();
    DocumentTagsDiffer();
    assert Footer() == ChannelClosing + (RssClosing + []);
    SkipClosing(RssClosing, [], p);
    SkipClosing(ChannelClosing, RssClosing + [], p);
  }

  /** A channel line followed by `rest`, cut into indentation, tags and text. */
  lemma ChannelLinePieces(title: string, link: string, rest: string)
    ensures ("  <title>" + title + "</title>\n") + rest == "  " + ("<title>" + (title + ("</title>\n" + rest)))
    ensures ("  <link>" + link + "</link>\n") + rest == "  " + ("<link>" + (link + ("</link>\n" + rest)))
  {
    assert "  <title>" == "  " + "<title>";
    assert "  <link>" == "  " + "<link>";
  }

  /** The channel title line holds item tags only where the verbatim title
      supplies them. */
  lemma TitleLineOccurrences(title: string, rest: string, p: string)
    requires p == ItemTag || p == ItemEndTag
    ensures Occurrences(("  <title>" + title + "</title>\n") + rest, p)
      == Occurrences(title + ("</title>\n" + rest), p)
  {
    DocumentTags();
    DocumentTagsDiffer();
    ChannelLinePieces(title, [], rest);
    SkipTag("<title>", title + ("</title>\n" + rest), p, 1);
    SkipPlain("  ", "<title>" + (title + ("</title>\n" + rest)), p);
  }

  /** The channel link line holds item tags only where the verbatim link
      supplies them. */
  lemma LinkLineOccurrences(link: string, rest: string, p: string)
    requires p == ItemTag || p == ItemEndTag
    ensures Occurrences(("  <link>" + link + "</link>\n") + rest, p)
      == Occurrences(link + ("</link>\n" + rest), p)
  {
    DocumentTags();
    DocumentTagsDiffer();
    ChannelLinePieces([], link, rest);
    SkipTag("<link>", link + ("</link>\n" + rest), p, 1);
    SkipPlain("  ", "<link>" + (link + ("</link>\n" + rest)), p);
  }

  /** The feed, cut at the channel title line. */
  lemma FormatRssPieces(jobs: seq<Job>, title: string, link: string)
    ensures FormatRss(jobs, title, link) ==
      XmlOpening + (RssOpening + (ChannelOpening + (("  <title>" + title + "</title>\n")
      + (("  <link>" + link + "</link>\n") + (FormatJobs(jobs) + Footer())))))
  {
    assert FormatRss(jobs, title, link) == Header(title, link) + (FormatJobs(jobs) + Footer());
    RegroupBlock(XmlOpening, RssOpening, ChannelOpening, "  <title>" + title + "</title>\n",
      "  <link>" + link + "</link>\n", FormatJobs(jobs) + Footer());
  }

  /** The declaration, `<rss>` and `<channel>` add no item tag. */
  lemma OpeningOccurrences(rest: string, p: string)
    requires p == ItemTag || p == ItemEndTag
    ensures Occurrences(XmlOpening + (RssOpening + (ChannelOpening + rest)), p) == Occurrences(rest, p)
  {
    DocumentTags();
    DocumentTagsDiffer();
    SkipTag(ChannelOpening, rest, p, 1);
    SkipTag(RssOpening, ChannelOpening + rest, p, 1);
    SkipTag(XmlOpening, RssOpening + (ChannelOpening + rest), p, 1);
  }

  /** Item tags in the feed: those in the verbatim channel title and link
      lines plus one of each per job. */
  lemma FormatRssOccurrences(jobs: seq<Job>, title: string, link: string, p: string)
    requires p == ItemTag || p == ItemEndTag
    ensures Occurrences(FormatRss(jobs, title, link), p) ==
      Occurrences(title + "</title>\n", p) + Occurrences(link + "</link>\n", p) + |jobs|
  {
    var tail := FormatJobs(jobs) + Footer();
    var linkLine := "  <link>" + link + "</link>\n";
    DocumentTags();
    FormatRssPieces(jobs, title, link);
    OpeningOccurrences(("  <title>" + title + "</title>\n") + (linkLine + tail), p);
    TitleLineOccurrences(title, linkLine + tail, p);
    LinkLineOccurrences(link, tail, p);
    FooterOccurrences(p);
    FormatJobsOccurrences(jobs, Footer(), p);
    ClosedTextOccurrences(title, "</title>\n", linkLine + tail, p);
    ClosedTextOccurrences(link, "</link>\n", tail, p);
  }

  /** Text ended by a closing tag: its occurrences do not reach into what
      follows the closing tag. */
  lemma {:induction false} ClosedTextOccurrences(text: string, close: string, rest: string, p: string)
    requires p == ItemTag || p == ItemEndTag
    requires OneTag(close) && |close| > 2 && close[1] == '/' && close[2] != 'i'
    ensures Occurrences(text + (close + rest), p) == Occurrences(text + close, p) + Occurrences(rest, p)
    decreases |text|
  {
    if |text| == 0 {
      assert text + (close + rest) == close + rest;
      assert text + close == close + [];
      SkipClosing(close, rest, p);
      SkipClosing(close, [], p);
    } else {
      var s := text + (close + rest);
      var u := text + close;
      assert s[1..] == text[1..] + (close + rest);
      assert u[1..] == text[1..] + close;
      ClosedTextOccurrences(text[1..], close, rest, p);
      assert (p <= s) == (p <= u) by {
        if |u| >= |p| {
          assert s[..|p|] == u[..|p|];
        } else {
          PrefixOfClosedText(text, close, rest, p);
        }
      }
    }
  }

  /** When `text + close` is shorter than an item tag, neither it nor any
      continuation of it begins with the item tag. */
  lemma PrefixOfClosedText(text: string, close: string, rest: string, p: string)
    requires p == ItemTag || p == ItemEndTag
    requires OneTag(close) && |close| > 2 && close[1] == '/' && close[2] != 'i'
    requires |text + close| < |p|
    ensures !(p <= text + close) && !(p <= text + (close + rest))
  {
    var s := text + (close + rest);
    var j := |text|;
    DocumentTags();
    assert s[j] == '<' && s[j + 1] == '/' && s[j + 2] == close[2];
    var m := if j > 0 then j else if p == ItemTag then 1 else 2;
    assert m < |p| && s[m] != p[m];
    if |p| <= |s| {
      assert s[..|p|][m] != p[m];
    }
  }

  /** For a channel title and link without markup, the feed holds exactly one
      `<item>` and one `</item>` per job. */
  lemma FormatRssItemCount(jobs: seq<Job>, title: string, link: string, p: string)
    requires p == ItemTag || p == ItemEndTag
    requires NoOpen(title) && NoOpen(link)
    ensures Occurrences(FormatRss(jobs, title, link), p) == |jobs|
  {
    DocumentTags();
    FormatRssOccurrences(jobs, title, link, p);
    AppendEmpty("</title>\n");
    AppendEmpty("</link>\n");
    SkipPlain(title, "</title>\n", p);
    SkipPlain(link, "</link>\n", p);
    SkipClosing("</title>\n", [], p);
    SkipClosing("</link>\n", [], p);
  }

  /** The channel title is not escaped: a title that is itself an item tag
      puts one more of that tag into the feed, before any job. */
  lemma ChannelTitleInjection(jobs: seq<Job>, link: string, p: string)
    requires p == ItemTag || p == ItemEndTag
    requires NoOpen(link)
    ensures Occurrences(FormatRss(jobs, p, link), p) == |jobs| + 1
  {
    DocumentTags();
    FormatRssOccurrences(jobs, p, link, p);
    assert p <= p;
    CountTag(p, "</title>\n", p);
    AppendEmpty("</title>\n");
    AppendEmpty("</link>\n");
    SkipClosing("</title>\n", [], p);
    SkipPlain(link, "</link>\n", p);
    SkipClosing("</link>\n", [], p);
  }
}
