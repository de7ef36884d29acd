# onepod core — a Dafny model

onepod publishes podcast transcripts kept as Feishu wiki documents. A build
step reads each document as a list of typed blocks and turns it into an
article record:

- the block list becomes sections of paragraphs, a full text and the first
  YouTube id;
- the title is split into a 4-digit date code and the rest;
- one section is chosen as the intro and one as the highlights;
- the lists and the text are capped;
- the records are stable-sorted by date code, newest first.

The web front end reads the same records and:

- looks them up by id, by index and by neighbour;
- picks a card colour by hashing the id;
- shapes the text for display: paragraph formatting, the intro filter,
  highlight grouping, the sidebar's title/guest split and the share card's
  line selection.

The build step exists twice, as `src/lib/feishu.ts` and as `build.py`. The
two run the same algorithm, so this project has one model for both and
cites both.

Modules:

| module | file | models |
|---|---|---|
| `Wrappers` | wrappers.dfy | `Option` |
| `Text` | text.dfy | JavaScript `\s`, `.`, `\d`, `trim`, prefix/suffix/occurrence predicates |
| `Lists` | lists.dfy | generic map / flat map over sequences |
| `Types` | types.dfy | the `Podcast` record and its YouTube metadata (`src/lib/types.ts`) |
| `YouTube` | youtube.dfy | `extractYoutubeId` / `extract_youtube_id` |
| `Blocks` | blocks.dfy | `extractTextFromElements`, `blocksToContent` and their Python twins |
| `Titles` | titles.dfy | `parseTitle` / `parse_title` |
| `Ordering` | ordering.dfy | the descending, stable sort by `dateCode` |
| `Feed` | feed.dfy | the classification, caps and sort of `fetchAllPodcasts` / `main` |
| `Podcasts` | podcasts.dfy | `src/lib/podcasts.ts` lookups |
| `Colors` | colors.dfy | `hashString`, `getColorForPodcast`, `PALETTE` |
| `Markup` | markup.dfy | the URL strip, the number rewrite and `formatParagraph` shared by ArticleCard and ShareButton |
| `ArticleCard` | articlecard.dfy | the intro filter and `HighlightsSection` |
| `Sidebar` | sidebar.dfy | `parseTitleAndGuest` |
| `ShareButton` | sharebutton.dfy | the `ShareCard` line selection |

Each regular expression is written out as a search function. Each search
keeps the engine's backtracking order:

- the leftmost start wins;
- a lazy group takes the shortest end that lets the rest match;
- a greedy group takes the longest.

The code each loop comes from has a method with a `while` loop, proved equal
to a specification function. The properties are lemmas about those
functions:

- the block walk (`Blocks.BlocksToContent`);
- the classification and record loop (`Feed.Classify`, `Feed.FetchAllPodcasts`);
- the hash (`Colors.HashString`);
- the text join of `build.py` (`Blocks.CollectText`);
- the highlight grouping (`ArticleCard.HighlightsSection`).

Where the code and the written description of the system disagree, the model
follows the code:

- **Intro choice.** The description says the intro is the first *untitled*
  section. The code (`src/lib/feishu.ts:296-304`, `build.py:229-235`) takes
  the first section whose title does not contain `精华`, titled or not.
  `Feed.IntroChoice` states the code's rule.
- **Unique ids.** The description says article ids are unique. Nothing in the
  code enforces this. `getPodcastById` returns the first match, and the
  neighbour lemmas take uniqueness as a precondition.

## Model

| member | source | states |
|---|---|---|
| Text.Trim | src/lib/feishu.ts:182 | the result has no whitespace at either end |
| Text.TrimIsInfix | src/lib/feishu.ts:190 | trimming keeps exactly the text between a run of leading and a run of trailing whitespace |
| Text.TrimEmptyIff | src/lib/feishu.ts:190 | `text.trim()` is empty exactly when the text is all whitespace |
| Text.TrimKeepsTrimmed | src/components/Sidebar.tsx:19-23 | trimming a string without whitespace at either end changes nothing |
| Text.TrimNoLineBreak | src/components/Sidebar.tsx:19-20 | trimming a one-line string leaves a one-line string |
| Text.TrimAppendSpaces | src/components/Sidebar.tsx:49 | whitespace after a text does not change what `trim` keeps |
| Text.Concat | src/lib/feishu.ts:118 | a join with the empty separator is empty exactly when every part is empty |
| YouTube.FindMatch | src/lib/feishu.ts:127 | the leftmost position where the pattern and an 11-character id match, and no match at all when it returns none |
| YouTube.ExtractYoutubeId | src/lib/feishu.ts:121-131 | any id returned is 11 characters of `[A-Za-z0-9_-]`; none is returned exactly when neither URL shape occurs anywhere |
| YouTube.WatchUrlWins | src/lib/feishu.ts:122-128 | when a `youtube.com/watch?v=` match exists, its leftmost id is returned, wherever any `youtu.be/` match lies |
| YouTube.ShortUrlFallback | build.py:73-80 | with no watch URL, the leftmost `youtu.be/` id is returned |
| YouTube.ExampleShortUrl | src/lib/feishu.ts:124 | `https://youtu.be/dQw4w9WgXcQ` yields `dQw4w9WgXcQ` |
| YouTube.ExampleWatchUrl | src/lib/feishu.ts:123 | `https://www.youtube.com/watch?v=dQw4w9WgXcQ` yields `dQw4w9WgXcQ` |
| Blocks.NonEmpty | src/lib/feishu.ts:117 | the filter keeps only non-empty texts |
| Blocks.ConcatNonEmpty | src/lib/feishu.ts:117-118 | dropping empty parts does not change the join |
| Blocks.ExtractTextJoinsAll | src/lib/feishu.ts:114-119 | the text of an element list is the in-order join of all run contents |
| Blocks.CollectText | build.py:62-69 | the accumulating loop returns the same text as the map/filter/join |
| Blocks.BlocksToContent | src/lib/feishu.ts:133-205 | the loop computes the normalised content. Its paragraphs are the accepted paragraphs in block order, and the full text is each followed by a newline. The id is the first one found in an accepted paragraph. Every section is non-empty and holds no blank or `---` paragraph |
| Blocks.NormalizeKeepsParagraphs | build.py:91-144 | the same facts for the specification function, and every section title is the text of some heading block or empty |
| Blocks.FirstIdStep | src/lib/feishu.ts:194-196 | once an id is found, later paragraphs never overwrite it |
| Blocks.SkipsUnknownBlocks | src/lib/feishu.ts:175-180 | blocks of a type other than 2, 3, 4, 5, 12, 13 change nothing |
| Blocks.RunOpens | src/lib/feishu.ts:150-165 | a type 3 or 4 heading flushes the current section and opens an empty one with the heading's text as its title |
| Blocks.StepAppends | src/lib/feishu.ts:190-193 | an accepted paragraph is appended to the current section and nothing else changes |
| Blocks.HeadingThenBreak | build.py:98-130 | heading, paragraphs, `---`, paragraphs gives exactly two sections: the titled one, then an untitled one, each with all its paragraphs |
| Blocks.RunAppend | src/lib/feishu.ts:143 | walking two block lists one after the other is walking their concatenation |
| Titles.SplitPoint | src/lib/feishu.ts:260 | the position the greedy separator run stops at, the last where the pattern matches; none when the pattern cannot match |
| Titles.ParseTitleSplits | src/lib/feishu.ts:259-267 | a date code is returned exactly when the pattern matches. It is 4 digits that start the raw title, and the title is its non-empty one-line tail after the separator run. Otherwise the code is empty and the title is the raw title |
| Titles.SecondPatternNeverDecides | build.py:198-200 | the digits-and-whitespace pattern matches only where the first pattern already does |
| Titles.ExampleTitle | src/lib/feishu.ts:260-261 | `0312：对话 Sam Altman` splits into `0312` and `对话 Sam Altman` |
| Titles.ExampleUntitled | src/lib/feishu.ts:266 | a title without a code is kept whole with an empty code |
| Ordering.LexLeTotal | src/lib/feishu.ts:330 | any two date codes are comparable |
| Ordering.LexLeTransitive | src/lib/feishu.ts:330 | the order on date codes is transitive |
| Ordering.LexLeAntisymmetric | src/lib/feishu.ts:330 | two codes ordered both ways are equal |
| Ordering.InsertStable | build.py:260 | inserting a record keeps the order of the records with any given code, the new one last |
| Ordering.SortCorrect | build.py:260 | the sort is descending by date code, a permutation, and for each code keeps the records with that code in input order |
| Ordering.EmptyCodesLast | src/lib/feishu.ts:330 | in the sorted list every record after one with an empty code also has an empty code |
| Feed.Classify | src/lib/feishu.ts:295-312 | the loop and its two fallbacks compute the intro and highlights choices |
| Feed.FirstPlainIsFirst | build.py:228-235 | the loop's intro is the first non-empty section without `精华`, and empty when there is none |
| Feed.LastMarkedIsLast | build.py:228-233 | the loop's highlights are the last `精华` section, and empty when there is none |
| Feed.IntroChoice | src/lib/feishu.ts:295-309 | the intro is non-empty exactly when there is a section. It is the first section without `精华`, else the first section |
| Feed.HighlightsChoice | src/lib/feishu.ts:295-312 | the highlights are the last `精华` section, else the last section when there are two or more. They are empty exactly when there is at most one section and none is marked |
| Feed.Take | src/lib/feishu.ts:323-325 | `slice(0, n)` is the longest prefix of length at most n |
| Feed.AssembleFields | src/lib/feishu.ts:316-327 | the record's id is the node token and its URL is the wiki prefix plus the token. The date code and title come from the title parser. Intro, highlights and full text are the chosen paragraphs and the text cut to exactly min(length, 15), min(length, 20) and min(length, 5000). Without a video id every metadata field is absent; with one the five fields are the fetched metadata |
| Feed.IntroPresent | build.py:237-238 | a document with at least one section gets a non-empty intro |
| Feed.AssembleDocument | src/lib/feishu.ts:288-327 | one loop iteration builds the record of one document |
| Feed.RecordsIndex | build.py:213-258 | one record per document, in listing order |
| Feed.FetchAllPodcasts | src/lib/feishu.ts:282-333 | the result is the stable descending sort of the records, sorted and a permutation of them |
| Podcasts.FindIndex | src/lib/podcasts.ts:22 | the index of the first element with the id, or -1 exactly when none has it |
| Podcasts.GetPodcastById | src/lib/podcasts.ts:10-12 | the first element with the id, and none exactly when the id is absent |
| Podcasts.GetPodcastByIndex | src/lib/podcasts.ts:14-16 | the element at the index when it is in range, nothing otherwise |
| Podcasts.IndexAgreesWithId | src/lib/podcasts.ts:10-22 | looking up by id is looking up by the index `findIndex` gives, and a record found by id has that id |
| Podcasts.FoundAtOwnPosition | src/lib/podcasts.ts:10-16 | a record whose id no earlier record has is found both by its index and by its id |
| Podcasts.AdjacentOfFound | src/lib/podcasts.ts:18-27 | for an id first found at i, `prev` is element i-1 when i > 0 and `next` is element i+1 when i is not last |
| Podcasts.AdjacentOfMissing | src/lib/podcasts.ts:22-25 | for an absent id there is no `prev`, and `next` is the first element when the list is non-empty |
| Podcasts.EndsHaveOneNeighbour | src/lib/podcasts.ts:24-25 | with unique ids the first element has no `prev` and the last no `next` |
| Podcasts.NeighboursAgree | src/lib/podcasts.ts:24-25 | with unique ids consecutive elements are each other's `next` and `prev` |
| Colors.PaletteSize | src/lib/colors.ts:1-33 | the palette has 31 entries |
| Colors.ToInt32 | src/lib/colors.ts:40 | the bitwise-or with 0 gives the signed 32-bit value congruent to its input modulo 2^32 |
| Colors.ShiftStep | src/lib/colors.ts:39-40 | `(h << 5) - h + c` followed by the bitwise-or with 0 equals 31·h + c wrapped to 32 bits |
| Colors.Hash | src/lib/colors.ts:35-43 | in [0, 2^31], and 0 for the empty string |
| Colors.HashString | src/lib/colors.ts:35-43 | the loop computes the hash recurrence; the result lies in [0, 2^31] |
| Colors.HashReachesTwoTo31 | src/lib/colors.ts:35-43 | the hash of `HZdZH@` is 2^31: the running value is exactly 2^31 before the last wrap, which makes it -2^31, and `Math.abs` gives 2^31, so the upper bound is attained |
| Colors.JsRem | src/lib/colors.ts:46 | JavaScript `%` agrees with the mathematical remainder on non-negative operands and is in (-31, 0] on negative ones |
| Colors.GetColorForPodcast | src/lib/colors.ts:45-48 | for a non-negative index, the palette entry at (hash + index) mod 31; any result is a palette entry |
| Colors.ColorPeriodic | src/lib/colors.ts:46 | index and index + 31 give the same colour |
| Colors.NegativeIndexMisses | src/lib/colors.ts:46-47 | a negative sum that is not a multiple of 31 gives no colour |
| Markup.UrlEnd | src/components/ArticleCard.tsx:9 | a URL match runs to the next whitespace or the end |
| Markup.StripUrlsCorrect | src/components/ArticleCard.tsx:9 | after the strip no `http(s)://` match remains; text without one is unchanged; stripping twice is stripping once |
| Markup.TrimNoUrl | src/components/ArticleCard.tsx:66 | trimming does not create a URL match |
| Markup.RewriteLeadingItem | src/components/ArticleCard.tsx:10 | a leading digit run, one of `、．.` and spaces become open + digits + `. ` + close, and the rewrite continues after them |
| Markup.RewriteWithoutItem | src/components/ShareButton.tsx:12 | text without a numbered item is unchanged |
| Markup.RewriteKeepsBlank | src/components/ShareButton.tsx:12-13 | the rewrite yields all whitespace exactly when its input is all whitespace |
| Markup.FormatParagraph | src/components/ArticleCard.tsx:7-12 | the formatted paragraph has no whitespace at either end |
| Markup.FormatBlankIndependent | src/components/ShareButton.tsx:9-14 | whether a paragraph formats to empty does not depend on the markup around the numbers, so the article and the card drop the same paragraphs |
| Markup.LineOf | src/components/ArticleCard.tsx:24-26 | each paragraph yields at most one, non-empty, trimmed line |
| Markup.VisibleLines | src/components/ArticleCard.tsx:17-34 | no more lines than paragraphs, each non-empty and trimmed |
| Markup.VisibleLinesAppend | src/components/ArticleCard.tsx:17-24 | the filter and map work paragraph by paragraph, so lines keep paragraph order |
| Markup.VisibleLinesFromParagraphs | src/components/ArticleCard.tsx:17-26 | every line is the formatting of some paragraph that mentions no YouTube marker |
| Markup.LineOfMember | src/components/ShareButton.tsx:28-36 | a line comes from a paragraph without a YouTube marker and is its formatting |
| Markup.DropsVideoParagraph | src/components/ArticleCard.tsx:18-23 | a paragraph with `YouTube 链接`, `youtube.com` or `youtu.be` yields no line |
| Markup.KeepsPlainParagraph | src/components/ArticleCard.tsx:17-26 | a paragraph without a YouTube marker that formats to some text is shown as exactly that text |
| Markup.VisibleLinesKeeps | src/components/ArticleCard.tsx:17-26 | every paragraph without a YouTube marker that formats to some text has its line among the shown lines |
| Markup.RewriteNoUrl | src/components/ArticleCard.tsx:10 | on URL-free text, the number rewrite creates no URL match when its markup has no `h` and does not open with a character of `http://` |
| Markup.FormatNoUrl | src/components/ArticleCard.tsx:7-12 | with such markup, a formatted paragraph contains no URL match |
| Markup.VisibleLinesNoUrl | src/components/ArticleCard.tsx:17-26 | with such markup, no shown line contains a URL match |
| ArticleCard.IntroLines | src/components/ArticleCard.tsx:17-34 | the intro shows at most one line per paragraph, each non-empty, URL-free and formatted from a paragraph without a YouTube marker; every such paragraph that formats to some text is shown |
| ArticleCard.FormatHighlight | src/components/ArticleCard.tsx:57-66 | a highlight line is trimmed and URL-free |
| ArticleCard.HeadingTitleStrips | src/components/ArticleCard.tsx:53 | `#`, digits and spaces are cut from the block title |
| ArticleCard.HeadingTitleUnnumbered | src/components/ArticleCard.tsx:53 | a `#` not followed by a digit is kept whole |
| ArticleCard.SpeakerLabelled | src/components/ArticleCard.tsx:58-61 | a leading `主持人` or `嘉宾`, a colon and spaces become the speaker span ending in `：`, and the rest is kept |
| ArticleCard.NoteLabelled | src/components/ArticleCard.tsx:62-65 | a leading `编辑补充`, a colon and spaces become the note span ending in `：`, and the rest is kept |
| ArticleCard.OneLabel | src/components/ArticleCard.tsx:58-65 | once a speaker span is inserted, the note rule does not fire |
| ArticleCard.HighlightLine | src/components/ArticleCard.tsx:44-68 | a paragraph contributes at most one line |
| ArticleCard.HighlightsSection | src/components/ArticleCard.tsx:39-70 | the loop computes the grouping. Every block has a title or a line, and every line is non-empty, trimmed and URL-free. The lines of all blocks in order are the lines of the kept paragraphs in order. Each title comes from a `#` paragraph or is empty |
| ArticleCard.HighlightsCorrect | src/components/ArticleCard.tsx:43-70 | the same facts for the specification function |
| ArticleCard.AllLinesPush | src/components/ArticleCard.tsx:52 | a block is emitted only when it has a title or lines |
| ArticleCard.RunFrom | src/components/ArticleCard.tsx:43 | the loop state after further paragraphs depends only on the state before them |
| ArticleCard.SkipsVideoParagraph | src/components/ArticleCard.tsx:44-49 | removing a paragraph with a YouTube marker, anywhere, leaves the blocks unchanged |
| ArticleCard.LinesJoinBlock | src/components/ArticleCard.tsx:57-68 | paragraphs that are not headings append their lines, in order, to the current block and leave the finished blocks and the title alone |
| ArticleCard.NoHeadingOneBlock | src/components/ArticleCard.tsx:41-70 | without a heading all lines form one untitled block, emitted when it has a line |
| ArticleCard.HeadingOpensBlock | src/components/ArticleCard.tsx:51-55 | a heading closes the current block (kept when it has a title or a line) and opens one titled by the heading that holds the lines up to the next heading |
| ShareButton.CardLines | src/components/ShareButton.tsx:28-38 | the card shows the first at most 10 surviving lines in order; `hasMore` holds exactly when more than 10 survive |
| ShareButton.CardMatchesArticle | src/components/ShareButton.tsx:28-38 | the card has as many lines as the article intro, cut to 10. Each line is non-empty, URL-free and formatted from a paragraph without a YouTube marker |
| Sidebar.Cleaned | src/components/Sidebar.tsx:11 | the cleaned title has no whitespace at either end |
| Sidebar.CrossEnd | src/components/Sidebar.tsx:17 | the shortest one-line guest in front of whitespace, `X` or `×`, whitespace and a non-empty tail; none exactly when no such split exists |
| Sidebar.ColonEnd | src/components/Sidebar.tsx:30 | the shortest one-line text before a colon with a non-empty tail after it; none exactly when there is no such colon |
| Sidebar.LazyEnd | src/components/Sidebar.tsx:21 | the first end at which the rest of a lazy pattern matches, within one line |
| Sidebar.TailStart | src/components/Sidebar.tsx:21 | the latest start of a non-empty one-line tail, the greedy `\s*` having taken all whitespace |
| Sidebar.GroupEnd | src/components/Sidebar.tsx:41 | the shortest lazy guest group followed by optional whitespace and `访谈` at the end |
| Sidebar.DeAt | src/components/Sidebar.tsx:41 | at a `的`, the match with the latest group start the greedy `\s*` allows |
| Sidebar.DeAtMatches | src/components/Sidebar.tsx:41 | at a given `的`: the match found, with the latest start and then the shortest group, and none exactly when no match starts there |
| Sidebar.DeSearch | src/components/Sidebar.tsx:41-42 | the first `的` at which the pattern matches |
| Sidebar.DeSearchMatches | src/components/Sidebar.tsx:41-44 | the match found, at the earliest `的`, with the pattern's backtracking choice of group; none exactly when the pattern matches nowhere |
| Sidebar.PipeSearch | src/components/Sidebar.tsx:49 | the first position where whitespace and a bar character begin a one-line tail |
| Sidebar.PipeCut | src/components/Sidebar.tsx:49 | the cut keeps a prefix of the title |
| Sidebar.PipeCutRemovesBars | src/components/Sidebar.tsx:49 | on one line, no bar character survives the cut |
| Sidebar.PipeCutNoBar | src/components/Sidebar.tsx:49 | a title without a bar character is not cut |
| Sidebar.PipeCutAtFirstBar | src/components/Sidebar.tsx:49 | on one line, the cut ends where the whitespace before the first bar begins, so the trimmed result is the trimmed text before that bar |
| Sidebar.InterviewGuest | src/components/Sidebar.tsx:34-37 | the guest taken before `访谈` is trimmed |
| Sidebar.InterviewGuestEnds | src/components/Sidebar.tsx:34-37 | a guest is set from the colon pattern only when the part before the colon ends in `访谈` |
| Sidebar.DeGuest | src/components/Sidebar.tsx:41-44 | the guest of pattern 3 is trimmed |
| Sidebar.DeGuestShape | src/components/Sidebar.tsx:41-44 | pattern 3 gives a guest only when the title contains `的` and ends in `访谈` |
| Sidebar.SplitParts | src/components/Sidebar.tsx:16-47 | the guest of every branch is trimmed |
| Sidebar.ArticleOneLine | src/components/Sidebar.tsx:17-46 | a one-line title gives a one-line article title in every branch |
| Sidebar.ParseTitleAndGuest | src/components/Sidebar.tsx:7-55 | both fields are trimmed, and the display title is empty exactly when the cleaned title is |
| Sidebar.DisplayDropsPipe | src/components/Sidebar.tsx:49-52 | the display title is the cleaned title (the fallback) or contains no bar character |
| Sidebar.NoColonCase | src/components/Sidebar.tsx:39-46 | with neither an `X`/`×` split nor a colon, the article title is the whole cleaned title (pipe cut, with fallback). The guest comes from pattern 3 and stays empty when that pattern matches nowhere |

## Left out

- HTTP, authentication and paging: `getTenantToken`, `getChildNodes`, `getDocBlocks`, `fetchYoutubeMeta` and the Python `get_token`, `get_children`, `get_doc_blocks`, `fetch_youtube_meta`. The block list, the node and the fetched metadata of each document are inputs (`Feed.Document`). Only the rule that no metadata is fetched without an id is modelled (`Feed.AssembleFields`).
- Logging, `time.sleep`, the environment checks, `sys.exit` and the JSON file write: I/O with no effect on the records.
- React rendering: JSX, the markup classes around each line, keys, portals, the QR code, `html2canvas`, the clipboard and timers. The model stops at the strings each component renders. The span and `<strong>` markup strings are parameters of the shared formatter.
- `src/components/Panel.tsx`, `MobileHeader.tsx`, `src/app/*` and `next.config.ts`: formatting with floats and dates, layout and configuration.
- Ordering.SortByDateCode: `localeCompare` and Python string order are modelled as lexicographic code-point order. This agrees on the digit and empty codes titles carry, not on locale collation in general. The library sort is modelled as a stable insertion sort on a sequence, not in place, because only its result is observable.
- Text.IsSpace: the whitespace set is JavaScript's `\s`/`trim` set. Python's `\s` and `str.strip` differ on a few code points: Python adds U+001C–U+001F and U+0085, JavaScript adds U+FEFF. `\d` is ASCII, where Python's is Unicode.
- Strings are sequences of code points. JavaScript's UTF-16 units (in `slice(0, 5000)` and in `charCodeAt` for characters beyond U+FFFF) are not modelled. `Colors.Hash` therefore hashes code points.
- Podcasts.GetPodcastByIndex: a non-integer JavaScript index is outside the model, which takes an integer.
- Podcasts.GetAllPodcasts: `getAllPodcasts` returns the bundled list unchanged, so the model is the identity on that list and states nothing beyond it. The JSON import is an input.
- Blocks.RunTexts and Feed.MetaFor: helpers whose contracts follow from their definitions. Their properties are stated by `Blocks.ExtractTextJoinsAll` and `Feed.AssembleFields`.
- ArticleCard.HighlightsSection: the mutable `current` object is a value. The original pushes `current` to `blocks` and then replaces it, so no alias is ever written after the push.
- ArticleCard.HighlightsCorrect: states the shape of the blocks, the order of all lines and where titles come from, not the block boundaries. The boundaries are stated by `ArticleCard.HeadingOpensBlock`, `ArticleCard.LinesJoinBlock`, `ArticleCard.NoHeadingOneBlock` and `ArticleCard.SkipsVideoParagraph`.
- Sidebar: no concrete example titles are proved. The general lemmas state each branch's behaviour instead.
- Python's `$` also matches before a final newline, and JavaScript's does not. The model follows JavaScript for `parseTitle`. Titles are one-line texts, where the two agree.
