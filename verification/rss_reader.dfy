/**
 Reading a serialised feed back. This is not part of the program; it is the
 inverse used to state that `format_jobs` and `format_rss` lose nothing: the
 item blocks can be cut apart again, in order, and unescaping their fields
 gives back every job's title and link.
 */
module RssReader {
  import opened Escaping
  import opened RssFormat
  import opened TagCount

  datatype Option<T> = None | Some(value: T)

  /** What a feed carries: channel title and link, and the jobs in order. */
  datatype Feed = Feed(title: string, link: string, jobs: seq<Job>)

  /** The position of the first `<` in `s`, or `|s|` when there is none. */
  function FirstOpen(s: string): (k: nat)
    ensures k <= |s|
    ensures forall i :: 0 <= i < k ==> s[i] != '<'
    ensures k == |s| || s[k] == '<'
    decreases |s|
  {
    if |s| == 0 || s[0] == '<' then 0
    else
      var k := FirstOpen(s[1..]);
      assert forall i :: 1 <= i < k + 1 ==> s[i] == s[1..][i - 1];
      k + 1
  }

  /** Splits `s` before its first `<`: the markup-free text, then the rest. */
  function SplitAtOpen(s: string): (r: (string, string))
    ensures r.0 + r.1 == s
    ensures NoOpen(r.0)
    ensures r.1 == [] || r.1[0] == '<'
  {
    var k := FirstOpen(s);
    assert s[..k] + s[k..] == s;
    (s[..k], s[k..])
  }

  /** Reads consecutive item blocks; `None` when `s` is not a run of them. */
  function ReadItems(s: string): Option<seq<Job>>
    decreases |s|
  {
    if |s| == 0 then Some([])
    else if !(BlockStart <= s) then None
    else
      var (t, r1) := SplitAtOpen(s[|BlockStart|..]);
      if !(TitleToLink <= r1) then None
      else
        var (l, r2) := SplitAtOpen(r1[|TitleToLink|..]);
        if !(BlockEnd <= r2) then None
        else
          match ReadItems(r2[|BlockEnd|..])
          case None => None
          case Some(jobs) => Some([Job(Unescape(l), Unescape(t))] + jobs)
  }

  /** Reads a whole feed; `None` when `s` does not have the shape `format_rss`
      produces. */
  function ReadFeed(s: string): Option<Feed> {
    if !(HeadStart <= s) then None
    else
      var (title, r1) := SplitAtOpen(s[|HeadStart|..]);
      if !(HeadTitleToLink <= r1) then None
      else
        var (link, r2) := SplitAtOpen(r1[|HeadTitleToLink|..]);
        if !(HeadEnd <= r2) then None
        else
          var body := r2[|HeadEnd|..];
          if |body| < |Footer()| || body[|body| - |Footer()|..] != Footer() then None
          else
            match ReadItems(body[..|body| - |Footer()|])
            case None => None
            case Some(jobs) => Some(Feed(title, link, jobs))
  }

  // ---------------------------------------------------------------------------
  // Lemmas
  // ---------------------------------------------------------------------------

  /** `a` is a prefix of `a + b`, and dropping it leaves `b`. */
  lemma PrefixOfAppend(a: string, b: string)
    ensures a <= a + b && (a + b)[|a|..] == b
  {
    assert (a + b)[..|a|] == a;
  }

  /** In text without `<` followed by a tag, the first `<` is the tag's. */
  lemma {:induction false} FirstOpenOf(x: string, y: string)
    requires NoOpen(x) && |y| > 0 && y[0] == '<'
    ensures FirstOpen(x + y) == |x|
    decreases |x|
  {
    if |x| == 0 {
      assert x + y == y;
    } else {
      assert (x + y)[0] == x[0] && (x + y)[1..] == x[1..] + y;
      FirstOpenOf(x[1..], y);
    }
  }

  /** Splitting text without `<` followed by a tag separates exactly the two. */
  lemma SplitAtOpenOf(x: string, y: string)
    requires NoOpen(x) && |y| > 0 && y[0] == '<'
    ensures SplitAtOpen(x + y) == (x, y)
  {
    FirstOpenOf(x, y);
    assert (x + y)[..|x|] == x && (x + y)[|x|..] == y;
  }

  /** Reading an item block back gives its job, then reading continues after it. */
  lemma ReadItemBlock(job: Job, rest: string)
    ensures ReadItems(ItemBlock(job) + rest) ==
      match ReadItems(rest)
      case None => None
      case Some(jobs) => Some([job] + jobs)
  {
    var t := Sanitize(job.title);
    var l := Sanitize(job.link);
    SanitizeNoOpen(job.title);
    SanitizeNoOpen(job.link);
    SanitizeRoundTrip(job.title);
    SanitizeRoundTrip(job.link);
    ItemBlockSplit(job, rest);
    var r2 := BlockEnd + rest;
    var r1 := TitleToLink + (l + r2);
    var s := BlockStart + (t + r1);
    PrefixOfAppend(BlockStart, t + r1);
    SplitAtOpenOf(t, r1);
    PrefixOfAppend(TitleToLink, l + r2);
    SplitAtOpenOf(l, r2);
    PrefixOfAppend(BlockEnd, rest);
    assert |s| > 0;
  }

  /** Round trip: the item text of `format_jobs` reads back as the same jobs,
      in the same order. */
  lemma {:induction false} ReadFormatJobs(jobs: seq<Job>)
    ensures ReadItems(FormatJobs(jobs)) == Some(jobs)
    decreases |jobs|
  {
    if |jobs| == 0 {
      assert FormatJobs(jobs) == [];
    } else {
      ReadItemBlock(jobs[0], FormatJobs(jobs[1..]));
      ReadFormatJobs(jobs[1..]);
      ConsTail(jobs);
    }
  }

  /** A non-empty list is its head followed by its tail. */
  lemma ConsTail(jobs: seq<Job>)
    requires |jobs| > 0
    ensures [jobs[0]] + jobs[1..] == jobs
  {
  }

  /** Distinct job lists give distinct item text. */
  lemma FormatJobsInjective(a: seq<Job>, b: seq<Job>)
    ensures FormatJobs(a) == FormatJobs(b) <==> a == b
  {
    ReadFormatJobs(a);
    ReadFormatJobs(b);
  }

  /** Round trip for the whole feed: when the channel title and link hold no
      markup, the document reads back as that title, that link and the jobs in
      order. */
  lemma ReadFormatRss(jobs: seq<Job>, title: string, link: string)
    requires NoOpen(title) && NoOpen(link)
    ensures ReadFeed(FormatRss(jobs, title, link)) == Some(Feed(title, link, jobs))
  {
    var j := FormatJobs(jobs);
    var f := Footer();
    var r2 := HeadEnd + (j + f);
    var r1 := HeadTitleToLink + (link + r2);
    FormatRssSplit(jobs, title, link);
    PrefixOfAppend(HeadStart, title + r1);
    assert HeadTitleToLink[0] == '<' && HeadEnd[0] == '<';
    SplitAtOpenOf(title, r1);
    PrefixOfAppend(HeadTitleToLink, link + r2);
    SplitAtOpenOf(link, r2);
    PrefixOfAppend(HeadEnd, j + f);
    var body := j + f;
    assert body[|body| - |f|..] == f;
    assert body[..|body| - |f|] == j;
    ReadFormatJobs(jobs);
  }
}
