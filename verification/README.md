# appone-parser RSS writer, modelled in Dafny

`appone-parser.py` reads job postings from a feed and writes them out again as an
RSS 2.0 document. This project models the pure string core of that program.
Each Python function maps to a Dafny definition:

| Python | Dafny | source |
|---|---|---|
| `str.replace` with a one-character pattern | `Escaping.ReplaceAll` | `appone-parser.py:34-38` |
| `sanitize_string` | `Escaping.Sanitize` | `appone-parser.py:30-42` |
| `format_element` | `RssFormat.FormatElement` | `appone-parser.py:18-22` |
| `format_item` | `RssFormat.FormatItem` | `appone-parser.py:24-28` |
| loop body of `format_jobs` (one job) | `RssFormat.ItemBlock` | `appone-parser.py:51-57` |
| `format_jobs` | `RssFormat.FormatJobs` (recursive), `RssFormat.FormatJobsLoop` (the loop) | `appone-parser.py:44-59` |
| header and closing of `format_rss` | `RssFormat.Header`, `RssFormat.Footer` | `appone-parser.py:65-79` |
| `format_rss` | `RssFormat.FormatRss` | `appone-parser.py:61-83` |

- `escaping.dfy` (module `Escaping`) holds the XML escaping: five
  single-character replace-all passes, ampersand first.
- `rss_format.dfy` (module `RssFormat`) holds the serialiser. It is plain
  concatenation of fixed text with the escaped fields.

A job is `Job(link, title)`. The program keeps it as the two-element list
`[link, title]`, so index 0 is the link and index 1 the title. Strings are
`seq<char>`.

Two more modules state what the serialiser promises:

- `tag_count.dfy` (module `TagCount`) counts `<item>` and `</item>` in the
  output.
- `rss_reader.dfy` (module `RssReader`) is an inverse of the serialiser. It
  reads a feed back into its channel title, channel link and jobs, so that
  order preservation and losslessness can be stated as round trips.

The escaping properties rest on `Escaping.SanitizeIsEscapeAll`. It says the
sequential chain of passes equals a one-pass, per-character escape map. Since
`&` is replaced first, no entity added by a later pass is escaped again.
Through those properties, the tag counts and the read-back lemmas rest on it
too. The layout lemmas of `RssFormat` do not need it.

The literal text follows the code, including its whitespace:

- item children are indented by four spaces (`appone-parser.py:22`);
- the `<item>` lines are indented by two spaces (`appone-parser.py:28`);
- the channel title and link lines are indented by two spaces
  (`appone-parser.py:69-70`);
- a blank line follows `<rss version="2.0">` (`appone-parser.py:66`).

## Model

| member | source | states |
|---|---|---|
| Escaping.ReplaceAllAbsent | appone-parser.py:34-38 | A replace pass leaves text that does not contain its character unchanged. |
| Escaping.ReplaceAllRemoves | appone-parser.py:34-38 | After a replace pass, no occurrence of the replaced character is left, provided the replacement does not contain it. |
| Escaping.ReplaceAllAppend | appone-parser.py:34-38 | A replace pass acts on each part of a concatenation independently. |
| Escaping.SanitizeAppend | appone-parser.py:30-42 | Sanitizing a concatenation is the concatenation of the sanitized parts. |
| Escaping.SanitizeChar | appone-parser.py:34-38 | On one character, the five passes in source order produce exactly that character's entity: `&`, `"`, `'`, `<`, `>` become `&amp;`, `&quot;`, `&apos;`, `&lt;`, `&gt;`; any other character is kept. |
| Escaping.SanitizeIsEscapeAll | appone-parser.py:30-42 | The five-pass chain equals the independent per-character escape map `EscapeAll` on every input, so no entity is escaped twice. |
| Escaping.SanitizeLength | appone-parser.py:34-38 | The output length is the input length plus 4 per `&`, 5 per `"`, 5 per `'`, 3 per `<` and 3 per `>`. |
| Escaping.SanitizeIdentityIff | appone-parser.py:34-38 | The output equals the input exactly when the input contains none of `& " ' < >`. |
| Escaping.SanitizeWellEscaped | appone-parser.py:34-38 | The output contains no `<`, `>`, `"` or `'`, and every `&` in it begins one of the five entities. |
| Escaping.SanitizeRoundTrip | appone-parser.py:34-38 | Decoding the five entities in the output recovers the original text. |
| Escaping.SanitizeInjective | appone-parser.py:30-42 | Two texts have the same sanitized form exactly when they are equal. |
| Escaping.AmpersandLastDoubleEscapes | appone-parser.py:34-38 | The ampersand pass must come first. Run last, it would turn `<` into `&amp;lt;`, whereas the source's order gives `&lt;`. |
| RssFormat.ItemText | appone-parser.py:18-28 | An item built from a title element and a link element is `  <item>\n    <title>`, the title text, `</title>\n    <link>`, the link text, then `</link>\n  </item>\n`. |
| RssFormat.ItemBlockLayout | appone-parser.py:51-57 | Each job yields exactly one block: its sanitized title (index 1) inside `<title>`, then its sanitized link (index 0) inside `<link>`, with the code's indentation. |
| RssFormat.FormatJobsLoop | appone-parser.py:44-59 | The accumulating loop returns the concatenation of the item blocks of all jobs, in input order. |
| RssFormat.FormatJobsAppend | appone-parser.py:49-59 | The item text of `a + b` is the item text of `a` followed by that of `b`. |
| RssFormat.FormatJobsSnoc | appone-parser.py:51-57 | Appending one job to the list appends exactly its item block to the text. |
| RssFormat.FormatRssLayout | appone-parser.py:61-83 | The document, line by line, is the XML declaration, `<rss version="2.0">` and a blank line, `<channel>`, the channel title line and the channel link line, then the item text of the jobs, then `</channel>` and `</rss>`. The channel title and link appear verbatim. |
| RssFormat.FormatRssEmpty | appone-parser.py:72-81 | With no jobs, the document is the same header lines followed directly by `</channel>\n` and `</rss>`, with nothing in between. |
| TagCount.SanitizeNoOpen | appone-parser.py:30-42 | Sanitized text contains no `<`, so it can open no tag. |
| TagCount.ItemBlockOccurrences | appone-parser.py:51-57 | One job's block adds exactly one `<item>` and one `</item>`, whatever its title and link contain. |
| TagCount.FormatJobsItemCount | appone-parser.py:44-59 | The item text holds exactly as many `<item>` and as many `</item>` as there are jobs. |
| TagCount.FormatRssOccurrences | appone-parser.py:61-83 | The document's count of `<item>` (or `</item>`) is the number of jobs plus whatever the verbatim channel title and link contribute. |
| TagCount.FormatRssItemCount | appone-parser.py:61-83 | When the channel title and link contain no `<`, the document holds exactly one `<item>` and one `</item>` per job. |
| TagCount.ChannelTitleInjection | appone-parser.py:69-70 | The channel title is not escaped: a title equal to `<item>` (or `</item>`) puts one more of that tag into the document. |
| RssReader.ReadItemBlock | appone-parser.py:51-57 | An item block can be cut out of the text and read back as its job; reading then continues after the block. |
| RssReader.ReadFormatJobs | appone-parser.py:44-59 | The item text reads back as exactly the input jobs, in the same order. |
| RssReader.FormatJobsInjective | appone-parser.py:44-59 | Two job lists give the same item text exactly when they are equal. |
| RssReader.ReadFormatRss | appone-parser.py:61-83 | When the channel title and link contain no `<`, the whole document reads back as that title, that link and the jobs in order. |

## Left out

- `search_jobs` (`appone-parser.py:4-16`) fetches and parses a feed over the network through the external `feedparser` library, whose behaviour cannot be seen here. The job list is an input sequence instead.
- `main` (`appone-parser.py:85-102`) handles command-line arguments, reports missing required flags and writes the output file. These are I/O and are not modelled.
- Characters are Dafny `char` values (Unicode scalar values). Python strings can also hold lone surrogate code points; escaping never touches them, and they are not modelled.
- TagCount.FormatRssItemCount: holds only when the channel title and link contain no `<`. The code inserts them verbatim, and `TagCount.ChannelTitleInjection` shows the count is wrong otherwise.
- RssReader.ReadFormatRss: holds only when the channel title and link contain no `<`, for the same reason. The code promises nothing about the well-formedness of unescaped channel text.
