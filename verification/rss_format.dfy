/**
 The RSS 2.0 serialiser: `format_element`, `format_item`, `format_jobs` and
 `format_rss`. Every function is plain concatenation of fixed text with the
 escaped job fields; the lemmas pin down the exact layout of the document.
 */
module RssFormat {
  import opened Escaping

  /** One job posting. The source keeps it as the list `[link, title]`. */
  datatype Job = Job(link: string, title: string)

  /** `format_element`: one child line of an `<item>`, indented by four spaces. */
  function FormatElement(text: string, openTag: string, closeTag: string): string {
    "    " + openTag + text + closeTag + "\n"
  }

  /** `format_item`: wraps the two child lines in an `<item>` block. */
  function FormatItem(title: string, link: string): string {
    ItemOpen + title + link + ItemClose
  }

  const ItemOpen: string := "  <item>\n"
  const ItemClose: string := "  </item>\n"

  /** The text `format_jobs` appends for one job: the escaped title line
      first, then the escaped link line. */
  function ItemBlock(job: Job): string {
    var title := FormatElement(Sanitize(job.title), "<title>", "</title>");
    var link := FormatElement(Sanitize(job.link), "<link>", "</link>");
    FormatItem(title, link)
  }

  /** `format_jobs` as a function: the item blocks of all jobs, in order. */
  function FormatJobs(jobs: seq<Job>): string {
    if |jobs| == 0 then [] else ItemBlock(jobs[0]) + FormatJobs(jobs[1..])
  }

  /** `format_jobs` as the source writes it: one pass over the jobs, appending
      each item block to an accumulator. */
  method FormatJobsLoop(jobs: seq<Job>) returns (s: string)
    ensures s == FormatJobs(jobs)
  {
    s := "";
    var i := 0;
    while i < |jobs|
      invariant 0 <= i <= |jobs|
      invariant s == FormatJobs(jobs[..i])
    {
      var jobName := Sanitize(jobs[i].title);
      var title := FormatElement(jobName, "<title>", "</title>");
      var linkParsed := Sanitize(jobs[i].link);
      var link := FormatElement(linkParsed, "<link>", "</link>");
      var item := FormatItem(title, link);
      FormatJobsPrefix(jobs, i);
      s := s + item;
      i := i + 1;
    }
    assert jobs[..i] == jobs;
  }

  const XmlOpening: string := "<?xml version=\"1.0\" encoding=\"UTF-8\" ?>\n"
  const RssOpening: string := "<rss version=\"2.0\">\n\n"
  const ChannelOpening: string := "<channel>\n"
  const ChannelClosing: string := "</channel>\n"
  const RssClosing: string := "</rss>"

  /** Everything before the first item: declaration, `<rss>`, `<channel>`, and
      the channel title and link lines, whose text is inserted verbatim. */
  function Header(title: string, link: string): string {
    XmlOpening + RssOpening + ChannelOpening
      + ("  <title>" + title + "</title>\n")
      + ("  <link>" + link + "</link>\n")
  }

  /** Everything after the last item. */
  function Footer(): string {
    ChannelClosing + RssClosing
  }

  /** `format_rss`: header, item blocks, closing tags. */
  function FormatRss(jobs: seq<Job>, title: string, link: string): string {
    Header(title, link) + FormatJobs(jobs) + Footer()
  }

  // ---------------------------------------------------------------------------
  // Layout lemmas
  // ---------------------------------------------------------------------------

  /** The fixed text between the fields of an item block. */
  lemma ItemLiterals()
    ensures ItemOpen + "    " + "<title>" == "  <item>\n    <title>"
    ensures "</title>" + "\n" + "    " + "<link>" == "</title>\n    <link>"
    ensures "</link>" + "\n" + ItemClose == "</link>\n  </item>\n"
  {
  }

  /** The two element lines inside `<item>` make up one block of fixed text
      around the title and the link. */
  lemma ItemText(t: string, l: string)
    ensures FormatItem(FormatElement(t, "<title>", "</title>"), FormatElement(l, "<link>", "</link>"))
      == "  <item>\n    <title>" + t + "</title>\n    <link>" + l + "</link>\n  </item>\n"
  {
    ItemLiterals();
    var a := ItemOpen + "    " + "<title>";
    var b := "</title>" + "\n" + "    " + "<link>";
    var c := "</link>" + "\n" + ItemClose;
    calc {
      FormatItem(FormatElement(t, "<title>", "</title>"), FormatElement(l, "<link>", "</link>"));
      ItemOpen + ("    " + "<title>" + t + "</title>" + "\n")
        + ("    " + "<link>" + l + "</link>" + "\n") + ItemClose;
      a + t + b + l + c;
    }
  }

  /** Each job yields exactly one block: title line before link line, both
      escaped, with the source's indentation. */
  lemma ItemBlockLayout(job: Job)
    ensures FormatJobs([job]) ==
      "  <item>\n    <title>" + Sanitize(job.title) + "</title>\n    <link>"
      + Sanitize(job.link) + "</link>\n  </item>\n"
  {
    assert [job][1..] == [];
    assert FormatJobs([job]) == ItemBlock(job);
    ItemText(Sanitize(job.title), Sanitize(job.link));
  }

  /** `format_jobs` is a homomorphism from job lists to text. */
  lemma {:induction false} FormatJobsAppend(a: seq<Job>, b: seq<Job>)
    ensures FormatJobs(a + b) == FormatJobs(a) + FormatJobs(b)
    decreases |a|
  {
    if |a| == 0 {
      assert a + b == b;
    } else {
      assert (a + b)[1..] == a[1..] + b;
      FormatJobsAppend(a[1..], b);
    }
  }

  /** Appending one job appends its block. */
  lemma FormatJobsSnoc(a: seq<Job>, job: Job)
    ensures FormatJobs(a + [job]) == FormatJobs(a) + ItemBlock(job)
  {
    FormatJobsAppend(a, [job]);
    assert [job][1..] == [];
  }

  lemma FormatJobsPrefix(jobs: seq<Job>, i: nat)
    requires i < |jobs|
    ensures FormatJobs(jobs[..i + 1]) == FormatJobs(jobs[..i]) + ItemBlock(jobs[i])
  {
    assert jobs[..i + 1] == jobs[..i] + [jobs[i]];
    FormatJobsSnoc(jobs[..i], jobs[i]);
  }

  /** The document line by line: the fixed header with the channel title and
      link inserted verbatim, then the item blocks, then the fixed footer. */
  lemma FormatRssLayout(jobs: seq<Job>, title: string, link: string)
    ensures FormatRss(jobs, title, link) ==
      "<?xml version=\"1.0\" encoding=\"UTF-8\" ?>\n"
      + "<rss version=\"2.0\">\n\n"
      + "<channel>\n"
      + "  <title>" + title + "</title>\n"
      + "  <link>" + link + "</link>\n"
      + FormatJobs(jobs)
      + "</channel>\n"
      + "</rss>"
  {
    RegroupDocument(XmlOpening, RssOpening, ChannelOpening, "  <title>", title, "</title>\n",
      "  <link>", link, "</link>\n", FormatJobs(jobs), ChannelClosing, RssClosing);
  }

  /** The concatenation of `format_rss`, flattened into its lines. */
  lemma RegroupDocument(a: string, b: string, c: string, d: string, e: string, f: string,
                        g: string, h: string, i: string, j: string, k: string, l: string)
    ensures a + b + c + (d + e + f) + (g + h + i) + j + (k + l)
      == a + b + c + d + e + f + g + h + i + j + k + l
  {
  }

  /** With no jobs the document is the header lines followed directly by the
      closing tags. */
  lemma FormatRssEmpty(title: string, link: string)
    ensures FormatRss([], title, link) ==
      "<?xml version=\"1.0\" encoding=\"UTF-8\" ?>\n"
      + "<rss version=\"2.0\">\n\n"
      + "<channel>\n"
      + "  <title>" + title + "</title>\n"
      + "  <link>" + link + "</link>\n"
      + "</channel>\n"
      + "</rss>"
  {
    FormatRssLayout([], title, link);
    assert FormatJobs([]) == [];
  }

  // ---------------------------------------------------------------------------
  // The document cut at the job fields and at the channel fields
  // ---------------------------------------------------------------------------

  /** The fixed text of an item block before the title, between title and
      link, and after the link. */
  const BlockStart: string := "  <item>\n    <title>"
  const TitleToLink: string := "</title>\n    <link>"
  const BlockEnd: string := "</link>\n  </item>\n"

  /** The fixed text of the header before the channel title, and between the
      channel title, link and the first item. */
  const HeadStart: string := XmlOpening + RssOpening + ChannelOpening + "  <title>"
  const HeadTitleToLink: string := "</title>\n" + "  <link>"
  const HeadEnd: string := "</link>\n"

  /** An item block followed by `rest`, cut at the title and link. */
  lemma ItemBlockSplit(job: Job, rest: string)
    ensures ItemBlock(job) + rest ==
      BlockStart + (Sanitize(job.title) + (TitleToLink + (Sanitize(job.link) + (BlockEnd + rest))))
  {
    var t := Sanitize(job.title);
    var l := Sanitize(job.link);
    ItemText(t, l);
    RegroupBlock(BlockStart, t, TitleToLink, l, BlockEnd, rest);
  }

  /** Concatenation regrouped to the right. */
  lemma RegroupBlock(a: string, b: string, c: string, d: string, e: string, f: string)
    ensures a + b + c + d + e + f == a + (b + (c + (d + (e + f))))
  {
  }

  /** A feed followed by nothing, cut at the channel title and link. */
  lemma FormatRssSplit(jobs: seq<Job>, title: string, link: string)
    ensures FormatRss(jobs, title, link) ==
      HeadStart + (title + (HeadTitleToLink + (link + (HeadEnd + (FormatJobs(jobs) + Footer())))))
  {
    RegroupFeed(XmlOpening + RssOpening + ChannelOpening, "  <title>", title, "</title>\n",
      "  <link>", link, "</link>\n", FormatJobs(jobs), Footer());
  }

  /** The concatenation of `format_rss`, regrouped around the channel title
      and link. */
  lemma RegroupFeed(a: string, b: string, c: string, d: string, e: string,
                    f: string, g: string, h: string, i: string)
    ensures a + (b + c + d) + (e + f + g) + h + i ==
      (a + b) + (c + ((d + e) + (f + (g + (h + i)))))
  {
  }
}
