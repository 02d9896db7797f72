# Colour-palette engine and prompt helpers, modelled in Dafny

This project models the pure core of an article-illustration tool.

The centre of it is the colour-palette engine of `lib/color_extractor.py`. It
takes the CSS texts of a site, already fetched, and runs two extraction passes
over every text:

- A structured pass over the tokenizer's reading of each declaration. Every
  colour token becomes a clamped `#rrggbb` key, tagged with the declaration's
  property name, and `currentColor` is dropped.
- A regex pass for `#` followed by 3 or 6 hex digits at a word boundary. Each
  match is lower-cased, expanded to six digits and tagged `regex`.

Both passes feed one insertion-ordered aggregate of key → (count, tags). The
classifier then puts every colour into the background, text or accent list. It
uses the perceived brightness (in exact integer arithmetic, times 1000) and the
property tags. Each list is stably sorted by weight, and the five palette roles
are read off the heads of the lists, with fixed defaults. The ranker lists the
most frequent colours, each with at most five of its tags.

Around it, the smaller pure pieces of the tool:

- `extract_headings` and the array-locating part of `_parse_proposals` (fenced
  block, first `[` to last `]`, with the JSON decoder as an oracle) from
  `lib/article_analyzer.py`.
- The layout table, image-key filtering, category lists, upload keys and the
  validation of the model's taste answer from `lib/preset_manager.py`.
- Block serialisation, template choice, input truncation and colour defaults
  from `lib/prompt_templates.py`. Templates are sequences of fixed text and
  named placeholders, and `str.format` is `Render`. Dictionary values are JSON
  values (`Json`): what gets inserted is their `str()`, and `if v:` tests their
  Python truth value.
- The crop box of `trim_whitespace` over a pixel grid, the paste offsets of
  `resize_to_target`, the logo positions of `add_logo` and `_hex_to_rgb` from
  `lib/image_postprocessor.py`.

Modules: `Common` (Python string and sequence built-ins), `Hex`, `RegexPass`,
`StructuredPass`, `Aggregator`, `Extract`, `StableSort`, `Classify`, `Rank`,
`ColorReport`, `Headings`, `Proposals`, `Presets`, `Prompts`, `Geometry`.

Where the code and its description disagree, the model follows the code. A
structured-parse exception part-way through a text is caught per text. The
events already added to the shared dictionary before the raise stay there, so
"the failed text contributes nothing from the structured pass" holds only when
the raise comes before the first colour. `StructuredPass.TextParse` carries
the cut point (`raisedAfter`), and `Extract.FailureIsolated` states the
cut-at-0 case.

## Model

| member | source | states |
|---|---|---|
| Hex.Clamp | lib/color_extractor.py:130-132 | the channel is within 0..255: unchanged inside the range, 0 below it, 255 above it |
| Hex.Byte2 | lib/color_extractor.py:133 | `{:02x}` gives two lower-case hex digits whose base-16 value is the byte |
| Hex.FormatRgb | lib/color_extractor.py:133 | formatting byte channels always gives a normalized key (`#` and six lower-case hex digits) |
| Hex.IntBase16Agrees | lib/color_extractor.py:153 | the direct reading of a digit pair agrees with the general `int(s, 16)` rule (sign, `0x`, underscores, whitespace) on every input |
| Hex.HexToRgbOfLiteral | lib/image_postprocessor.py:202-205 | `_hex_to_rgb` on `#` plus six hex digits of either case succeeds, and every channel is the byte its digit pair spells, so lies in 0..255 |
| Hex.HexToRgbFormat | lib/color_extractor.py:150-153 | reading back a formatted colour gives the colour: `_hex_to_rgb` inverts `#rrggbb` formatting for byte channels |
| Hex.FormatHexToRgb | lib/color_extractor.py:150-153 | the other direction: every normalized key reads as byte channels that format back to the same key |
| RegexPass.MatchLen | lib/color_extractor.py:139 | a match is `#`, then exactly 3 or 6 hex digits, then a word boundary |
| RegexPass.Normalize | lib/color_extractor.py:142-144 | lower-casing and expanding a 3- or 6-digit literal gives a normalized key |
| RegexPass.ScanFrom | lib/color_extractor.py:139-145 | every key the pass emits is a normalized key |
| RegexPass.FindHexLiterals | lib/color_extractor.py:139-145 | the scanning loop emits exactly the keys of the reference scan, all normalized |
| RegexPass.KeyRoundTrip | lib/color_extractor.py:139-144 | a normalized key scanned on its own yields exactly itself |
| RegexPass.ShortFormExpanded | lib/color_extractor.py:142-144 | `#abc` yields `#aabbcc` and `#FFF` yields `#ffffff` |
| RegexPass.SpellingsCollapse | lib/color_extractor.py:142-144 | `#ABC` and `#aabbcc` yield the same single key |
| RegexPass.OtherRunLengthsEmitNothing | lib/color_extractor.py:139 | `#` and a run of hex digits of any length other than 3 or 6 emits nothing, because of the trailing word boundary |
| RegexPass.FourAndEightDigitsEmitNothing | lib/color_extractor.py:139 | `#abcd` and `#aabbccdd` emit nothing |
| RegexPass.GluedWordCharEmitsNothing | lib/color_extractor.py:139 | a word character right after `#abc` removes the `\b`, so nothing is emitted |
| RegexPass.GluedLatinAndKanaExamples | lib/color_extractor.py:139 | `#abcª` and `#abcゝ` emit nothing |
| RegexPass.NoHashNoKeys | lib/color_extractor.py:139 | text with no `#` emits no key |
| RegexPass.KeyInContext | lib/color_extractor.py:139-145 | a key after `#`-free text and before a non-word character is emitted first, followed by the keys of the rest |
| StructuredPass.TokenKey | lib/color_extractor.py:128-133 | a token yields a key exactly when it is a colour (not `currentColor`, not a non-colour), and the key is normalized |
| StructuredPass.TokenKeyReadsBack | lib/color_extractor.py:130-133 | the key of a colour token reads back as its three channels, each clamped to 0..255 |
| StructuredPass.TokenEvents | lib/color_extractor.py:127-134 | one event per colour token of a declaration's value, each tagged with the declaration's lower-cased name |
| StructuredPass.TokenEventsKeys | lib/color_extractor.py:127-134 | the i-th event carries the i-th colour token's key and the declaration's name |
| StructuredPass.CurrentColorIgnored | lib/color_extractor.py:129 | removing every `currentColor` token leaves a declaration's events unchanged |
| StructuredPass.StructuredEvents | lib/color_extractor.py:111-136 | a text's structured events are a prefix of its full event list: all of it when nothing raises, none when the raise comes first |
| Aggregator.AddColor | lib/color_extractor.py:104-109 | one event adds exactly 1 to its lower-cased key's count and adds its tag. A new key enters with count 1 at the end of the order. No other key changes |
| Aggregator.Aggregate | lib/color_extractor.py:104-109 | after any event sequence, keys are listed once each, and every key has count >= number of tags >= 1 |
| Aggregator.AggregateKeys | lib/color_extractor.py:104-109 | a key is present exactly when some event is stored under it |
| Aggregator.AggregateCounts | lib/color_extractor.py:104-109 | each key's count is the number of its events, and its tag set is the set of those events' tags |
| Aggregator.AggregateOrder | lib/color_extractor.py:104-109 | keys are ordered by their first event (dict insertion order) |
| Aggregator.TotalIsEventCount | lib/color_extractor.py:104-109 | the counts add up to the number of events |
| Extract.RegexEvents | lib/color_extractor.py:140-145 | one `regex` event per regex-pass key of the text, in order |
| Extract.LowerOfKey | lib/color_extractor.py:105 | `_add_color`'s lower-casing leaves a normalized key unchanged |
| Extract.ParseColors | lib/color_extractor.py:94-147 | every key is normalized, and the counts add up to the number of structured events plus the number of regex matches over all texts |
| Extract.ParseColorsAdditive | lib/color_extractor.py:111-145 | a key's count for a list of texts is the sum of its counts for the two halves of the list |
| Extract.SingleSourceCount | lib/color_extractor.py:111-145 | one text's count for a key is its structured events plus its regex matches for that key |
| Extract.FailureIsolated | lib/color_extractor.py:112-136 | a structured-parse failure on one text loses exactly that text's structured events. The other texts, and the regex pass over the failing text, still count |
| Extract.BothPassesCount | lib/color_extractor.py:111-145 | `h1{color:#ff0000}` yields one key `#ff0000` with count 2 and tags `color`, `regex` |
| Extract.InlineStyleRegexKeys | lib/color_extractor.py:89 | wrapping an inline `style` attribute as `dummy { … }` leaves the regex pass's keys unchanged |
| StableSort.Insert | lib/color_extractor.py:202-204 | inserting into a sorted list keeps it sorted (weight descending, insertion order among equals) and adds exactly that entry |
| StableSort.SortDesc | lib/color_extractor.py:202-204 | the stable sort's result is sorted and a permutation of its input |
| StableSort.SortedHead | lib/color_extractor.py:207-211 | the head of a sorted list outweighs every other entry and, among those of equal weight, was inserted first |
| StableSort.SortedMembers | lib/color_extractor.py:202-204 | sorting neither adds nor drops an entry |
| Classify.KeyRgbIsHexToRgb | lib/color_extractor.py:175 | `_hex_to_rgb` on a key always succeeds, with byte channels that format back to the key |
| Classify.Brightness1000 | lib/color_extractor.py:156-159 | brightness ×1000 lies in 0..255000 for byte channels, and a grey `(v,v,v)` has brightness exactly `v` |
| Classify.PlaceBuckets | lib/color_extractor.py:179-199 | background iff brightness > 240, or a `background` tag with 30 <= brightness and > 200. Text iff brightness < 30, or no `background` tag, a `color` tag and brightness < 80 (with <= 240). Weight doubles exactly for accents with a `background` tag |
| Classify.PlaceFollowsRules | lib/color_extractor.py:164-199 | the nested branches give the same placement as the first-match rule table written from the heuristic |
| Classify.BrightnessBoundary | lib/color_extractor.py:180-182 | `#f0f0f0` (brightness exactly 240) falls through to the tag rules, while `#f1f1f1` goes to background |
| Classify.Placements | lib/color_extractor.py:174-199 | one placement per aggregated colour, in insertion order |
| Classify.BucketFrom | lib/color_extractor.py:174-199 | a list holds every colour placed in it, in insertion order, with the weight of its placement, and nothing else |
| Classify.ExactlyOneBucket | lib/color_extractor.py:174-199 | a colour is in a list iff its placement names that list, so every colour lands in exactly one |
| Classify.BucketKeysDistinct | lib/color_extractor.py:174-199 | no colour appears twice within a list |
| Classify.BucketKeysInData | lib/color_extractor.py:174-199 | every listed colour is an aggregated colour |
| Classify.SortedLeaders | lib/color_extractor.py:202-204 | after the stable sort, the first three entries each outweigh every entry not yet taken, and win ties by insertion order |
| Classify.SortedBucketLeaders | lib/color_extractor.py:202-211 | the same for each of the three candidate lists |
| Classify.BackgroundAndTextRoles | lib/color_extractor.py:206-208 | background and text are the leaders of their lists, or `#ffffff` / `#1f2937` when the list is empty |
| Classify.AccentRoles | lib/color_extractor.py:209-211 | primary, secondary and accent are the first, second and third leaders of the accent list. A role the list is too short for takes `#3b82f6`, `#10b981` or `#f59e0b` |
| Classify.AccentRolesDistinct | lib/color_extractor.py:209-211 | with three or more accent candidates, primary, secondary and accent are pairwise distinct |
| Classify.RolesFromData | lib/color_extractor.py:206-211 | every role drawn from a list long enough to supply it is an aggregated colour: background, text and primary from a non-empty list, secondary from two or more accents, accent from three or more |
| Classify.EmptyGivesDefaults | lib/color_extractor.py:206-211 | no colours give exactly `#ffffff/#1f2937/#3b82f6/#10b981/#f59e0b` |
| Classify.ButtonPagePalette | lib/color_extractor.py:162-212 | a three-colour page gives the expected roles, with the defaults for the missing accents |
| Rank.CountEntries | lib/color_extractor.py:40-42 | the candidates are the aggregated colours in insertion order, weighted by count, with distinct positions |
| Rank.RankedEntries | lib/color_extractor.py:40-43 | the ranking holds every aggregated colour exactly once, with its count as weight |
| Rank.TopColors | lib/color_extractor.py:40-54 | `all_colors` has `min(top_n, colours)` rows (Python slice rules for negative `top_n`), row i being the i-th ranked colour with its count and first five tags |
| Rank.TopColorsWeights | lib/color_extractor.py:40-50 | each row's count is the weight its colour was ranked by |
| Rank.TopColorsRanked | lib/color_extractor.py:40-43 | rows are in non-increasing count order and no colour appears twice |
| Rank.TopColorsAreTop | lib/color_extractor.py:40-43 | a colour left out of the rows weighs no more than any colour kept |
| Rank.TopColorsProperties | lib/color_extractor.py:51 | each row lists at most five tags, all of them the colour's, and all of them when it has five or fewer |
| ColorReport.ExtractColors | lib/color_extractor.py:35-55 | the report's rows number at most `top_n` and at most the number of colours, each with at most five tags |
| ColorReport.ReportParts | lib/color_extractor.py:36-55 | the palette is the classifier's result and the rows are the ranker's, both over the aggregate of all texts |
| ColorReport.NoColoursGivesDefaults | lib/color_extractor.py:36-55 | texts with no colour events give the default palette and no rows |
| ColorReport.RedHeadingReport | lib/color_extractor.py:19-55 | `h1{color:#ff0000}` reports text colour `#ff0000`, default other roles, and one row with count 2 |
| Headings.MarkdownLevels | lib/article_analyzer.py:29-40 | a stripped line starting `### ` gives level 3 and never level 2. `## ` (without `### `) gives level 2. Otherwise the Markdown branch gives nothing |
| Headings.MarkdownText | lib/article_analyzer.py:32-38 | Markdown heading text is the line after its `#` run and space, stripped, and is never empty |
| Headings.HtmlSpan | lib/article_analyzer.py:43-44 | the span found lies between an opening `<hN` (any case) closed by `>` and a closing `</hN>` |
| Headings.HtmlSpanLeftmost | lib/article_analyzer.py:43 | the span is the leftmost match: first opening tag, first `>` after it, first closing tag after that (lazy `.*?`) |
| Headings.NoSpanNoMatch | lib/article_analyzer.py:43-44 | when no span is found, no opening tag has a `>` followed by a closing tag |
| Headings.StripTags | lib/article_analyzer.py:45 | removing tags never lengthens the text |
| Headings.StripTagsNoTag | lib/article_analyzer.py:45 | text without `<` is left as it is |
| Headings.StripTagsNoClose | lib/article_analyzer.py:45 | text without `>` is left as it is |
| Headings.StripTagsExample | lib/article_analyzer.py:45 | `<b>x</b>` becomes `x` |
| Headings.OpensTagShift | lib/article_analyzer.py:45 | a match of `<[^>]+>` at `i + 1` is a match at `i` once the first character is dropped, and back |
| Headings.StripTagsBranch | lib/article_analyzer.py:45 | the removal branch is taken exactly where `<[^>]+>` matches |
| Headings.TagFreeFixed | lib/article_analyzer.py:45 | text in which `<[^>]+>` matches nowhere is left as it is |
| Headings.StripTagsTagFree | lib/article_analyzer.py:45 | no match of `<[^>]+>` remains after the removal |
| Headings.StripTagsIdempotent | lib/article_analyzer.py:45 | removing tags twice gives the same text as removing them once |
| Headings.HtmlHeading | lib/article_analyzer.py:43-53 | an HTML heading has the tag's level, the line's number and non-empty text |
| Headings.EmptyHtmlTextEmitsNothing | lib/article_analyzer.py:45-47 | a span whose tag-stripped text is empty emits nothing |
| Headings.LineHeadings | lib/article_analyzer.py:26-53 | one line yields at most three headings (Markdown, h2, h3), each of level 2 or 3 with non-empty text and that line's number |
| Headings.ExtractHeadings | lib/article_analyzer.py:14-55 | every heading has level 2 or 3, non-empty text and a line number in 1..(number of lines), in non-decreasing line order |
| Headings.HeadingsOfLine | lib/article_analyzer.py:25-53 | the headings carrying line n are exactly those line n yields on its own |
| Proposals.CodeBlock | lib/article_analyzer.py:122-126 | a block starts at the first fence and ends at the first fence after the opening's `json`/whitespace prefix |
| Proposals.NoBlockNoFencePair | lib/article_analyzer.py:122-128 | when no block is found, the answer holds no two non-overlapping fences |
| Proposals.SearchedInBlock | lib/article_analyzer.py:128 | with a block, only its contents, stripped, are searched |
| Proposals.FenceContentsOnly | lib/article_analyzer.py:122-128 | in `pre` + `` ```json `` + body + `` ``` `` + `post` (backtick-free `pre` and body), the searched text is the stripped body, whatever `post` holds |
| Proposals.BlockAt | lib/article_analyzer.py:122-126 | a leading `` ```json `` fence and the next fence delimit the block, its contents starting after the whitespace |
| Proposals.BracketSlice | lib/article_analyzer.py:131-136 | there is no slice exactly when the searched text lacks `[` or lacks `]` |
| Proposals.MissingBracketGivesEmpty | lib/article_analyzer.py:133-134 | a searched text without `[` or without `]` gives `[]` |
| Proposals.DecoderInput | lib/article_analyzer.py:131-145 | the decoder receives exactly the text from the first `[` through the last `]`, and its list is returned, or `[]` otherwise |
| Proposals.ReversedBracketsGiveEmpty | lib/article_analyzer.py:136-145 | when the last `]` precedes the first `[`, the decoder gets the empty text and the result is `[]` |
| Proposals.NonListGivesEmpty | lib/article_analyzer.py:138-145 | a decode error or a non-list decode gives `[]` |
| Presets.LayoutIdForType | lib/preset_manager.py:175-177 | any name outside the table maps to `classification` |
| Presets.LayoutTableMatchesCategories | lib/preset_manager.py:14-20 | each declared layout's Japanese name maps to its own id, and every answer is the id of a declared layout |
| Presets.ListImages | lib/preset_manager.py:217-223 | keeps exactly the keys ending, case-insensitively, in `.png`, `.jpg`, `.jpeg` or `.webp` |
| Presets.ListImagesAppend | lib/preset_manager.py:217-223 | filtering distributes over concatenation, so storage order is kept |
| Presets.ImageKeyExamples | lib/preset_manager.py:70 | `PHOTO.JPG` is an image, while `notes.txt` and `image.png.bak` are not |
| Presets.WithImages | lib/preset_manager.py:82-89 | a declared category gets the images under `kind/id`, with `image_count` equal to their number |
| Presets.AllWithImages | lib/preset_manager.py:82-89 | every declared category, in order, with its images |
| Presets.Categories | lib/preset_manager.py:79-103 | the defaults in order, then `custom` exactly when its prefix holds an image, and every `image_count` equal to the number of keys |
| Presets.TasteCategoriesShape | lib/preset_manager.py:79-103 | the three default tastes in declared order, plus `custom` with its images iff `taste/custom` holds an image |
| Presets.LayoutCategoriesShape | lib/preset_manager.py:105-129 | the five default layouts in declared order, plus `custom` iff `layout/custom` holds an image |
| Presets.UploadKeyRoundTrip | lib/preset_manager.py:165-169 | splitting the key on `/` gives back the type, the id and the file name's pieces, and the key lies under `type/id` |
| Presets.NormalizeAnswer | lib/preset_manager.py:208 | the normalized answer contains no space |
| Presets.NormalizeAnswerLetters | lib/preset_manager.py:208 | for an answer without surrounding space, each character is lower-cased, spaces become `_`, and the length is kept |
| Presets.DescriptionLines | lib/preset_manager.py:187-191 | there are no description lines exactly when no category has images |
| Presets.Ids | lib/preset_manager.py:209 | the valid ids are the listed categories' ids, in order |
| Presets.ChooseListed | lib/preset_manager.py:206-215 | the chosen taste is a listed category's id or `flat_minimal` |
| Presets.ChooseAsks | lib/preset_manager.py:186-207 | the model is asked iff some category has images, with the category lines in the prompt. Otherwise the result is `flat_minimal` without asking |
| Presets.ChooseAnswer | lib/preset_manager.py:206-215 | the normalized answer is taken iff it is a listed id. A failed call or any other answer gives `flat_minimal` |
| Presets.AutoSelectTasteSpec | lib/preset_manager.py:179-215 | `auto_select_taste` returns a listed taste id or `flat_minimal`, and `flat_minimal` without a query when no taste has images |
| Prompts.HoleRendered | lib/prompt_templates.py:384-403 | `str.format` puts a placeholder's value exactly at its place between the rendered text before and after it |
| Prompts.RenderIgnores | lib/prompt_templates.py:384-403 | a value for a name the template does not use changes nothing |
| Prompts.Field | lib/prompt_templates.py:427 | `d.get(key, "")`: the stored value when present, else the empty string |
| Prompts.Get | lib/prompt_templates.py:426 | `d.get(key, "")` inserted into text: `str()` of the stored value when present, else `""` |
| Prompts.GetOr | lib/prompt_templates.py:385-402 | `config.get(key, default)` inserted by `str.format`: `str()` of the configured value when present, else the default |
| Prompts.DesignParams | lib/prompt_templates.py:384-402 | every placeholder of the design-system template gets a value |
| Prompts.DesignColourDefaults | lib/prompt_templates.py:387-392 | missing colours default to `#FFFFFF`, `#3B82F6`, `#10B981`, `#F59E0B`, `#1F2937` and `#E74A3B`, and configured ones are used |
| Prompts.DesignConfigWins | lib/prompt_templates.py:384-402 | every configured value of a template key is the value used |
| Prompts.DangerColorRendered | lib/prompt_templates.py:382-403 | the danger colour, configured or defaulted, appears in the rendered design system |
| Prompts.DictLines | lib/prompt_templates.py:423-431 | lines exist iff every block is a dict, one `DictLine` per block |
| Prompts.BuildBlocksText | lib/prompt_templates.py:420-432 | no blocks give `""`. Only the first block's type selects the branch, so the dict branch fails exactly when a later block is not a dict |
| Prompts.DictLineSingle | lib/prompt_templates.py:426-429 | a dict block whose field values print on one line renders as a single line |
| Prompts.BlocksTextLines | lib/prompt_templates.py:420-432 | the text splits into one line per block: `DictLine` in the dict branch, `- str(b)` otherwise |
| Prompts.IllustrationNote | lib/prompt_templates.py:426-429 | `- 【str(heading)】str(description)`, with `　→ イラスト: str(illustration)` appended iff the illustration is present and truthy. An empty string, `null`, `false`, zero or an empty container adds nothing |
| Prompts.NullFieldsLine | lib/prompt_templates.py:426-429 | a block whose heading and illustration are `null` renders as `- 【None】` with no note |
| Prompts.MvProposalTruncates | lib/prompt_templates.py:435-440 | articles agreeing on their first 3000 characters give the same prompt, and a shorter article is quoted whole |
| Prompts.MvSlots | lib/prompt_templates.py:457-465 | the text slots are exactly the six MV fields, each `str()` of `mv_proposal.get(field, "")`, and the language argument |
| Prompts.MvParams | lib/prompt_templates.py:456-487 | every placeholder of the chosen MV template gets a value |
| Prompts.MvTemplateChoice | lib/prompt_templates.py:456-487 | spec template iff reference images and a non-empty spec. Reference-only iff reference images and an empty spec. Full iff no reference images |
| Prompts.MvSpecUse | lib/prompt_templates.py:443-475 | a non-empty spec used with reference images appears in the prompt. The design system and design analysis never change it |
| Prompts.MvFullIgnoresSpec | lib/prompt_templates.py:477-487 | without reference images the spec has no effect |
| Prompts.GenerationParams | lib/prompt_templates.py:502-509 | the short template's six values: `layout_type`, `purpose`, `conclusion` and `composition_description` are each `str()` of the proposal field or `""` when it is missing, then the blocks text and the language argument |
| Prompts.FullParams | lib/prompt_templates.py:512-521 | the full template gets the design-system text and a value for every placeholder |
| Prompts.GenerationDesignSystem | lib/prompt_templates.py:490-521 | without reference images the prompt opens with the design-system text. With them the design system has no effect |
| Prompts.MissingFieldIsEmpty | lib/prompt_templates.py:515 | a missing `reader_mindset` renders exactly as an empty one |
| Geometry.TrimBox | lib/image_postprocessor.py:22-41 | no box iff no pixel has a channel below the threshold. Otherwise the box is the tight content bounds widened by `padding` and clipped to the image |
| Geometry.TightContains | lib/image_postprocessor.py:25-32 | every content pixel lies within the tight bounds |
| Geometry.TightUnique | lib/image_postprocessor.py:31-32 | the tight bounds of an image are unique |
| Geometry.CropBoxSound | lib/image_postprocessor.py:31-41 | the crop box lies within the image and contains every content pixel. Each side extends at most `padding` beyond the tight bounds, and exactly that far unless clipped at the edge |
| Geometry.CenterDotExample | lib/image_postprocessor.py:13-41 | a 3×3 image with one dark centre pixel keeps the whole image under the default padding |
| Geometry.PasteOffset | lib/image_postprocessor.py:51-52 | the offsets are `(width - w')//2` and `(height - h')//2` |
| Geometry.PasteInside | lib/image_postprocessor.py:47-53 | a thumbnail that fits is pasted inside the canvas, centred to within one pixel |
| Geometry.LogoPosition | lib/image_postprocessor.py:152-159 | a position outside the table gives the bottom-right coordinates |
| Geometry.UnknownPositionIsBottomRight | lib/image_postprocessor.py:159 | any other name places the logo exactly as `bottom-right` does |
| Geometry.LogoInside | lib/image_postprocessor.py:152-159 | when the logo and two margins fit, every position keeps the logo inside the image, and each corner keeps exactly `margin` from its two edges |
| Geometry.OverlayDefaultText | lib/image_postprocessor.py:62 | the overlay's default text colour reads as white |
| Geometry.OverlayDefaultBar | lib/image_postprocessor.py:63 | the overlay's default bar colour reads as black |

## Left out

- Fetching: `_fetch_all_css` (HTTP, HTML parsing, URL joining) is I/O. The model takes the fetched CSS texts as input, and only the inline-style wrapper (`InlineStyleText`) is modelled.
- CSS tokenizing and colour-value parsing are foreign libraries. Each text's structured pass is an input (`TextParse`): its rules, declarations and tokens as the tokenizer gives them, plus where it raised, if anywhere.
- StructuredPass.TokenKey: colour channels are taken as the integers `int(x*255)` produces. The floating-point product and its truncation are not modelled.
- Classify.Brightness1000: brightness is exact integer arithmetic (`299r+587g+114b` against 1000× each threshold). The source's floating-point sum may round differently right at a threshold.
- Rank.TopColorsProperties: a tag set's iteration order is Python's hash order. The model lists the first five tags in first-seen order, and the contract states only what holds for any order (at most five, all the colour's, all of them when five or fewer).
- Lower-casing (`str.lower`, `re.IGNORECASE`) covers ASCII letters only, and `\w` for the regex word boundary covers exactly the ranges listed on `RegexPass.IsWordChar`: ASCII letters, digits and `_`, the Latin-1 letters and numerics, hiragana, katakana (with the half-width and phonetic-extension blocks), `々 〆 〇` and the CJK ideographs U+3400 to U+4DBF and U+4E00 to U+9FFF. Letters and digits of other scripts, which Python's `\w` also accepts, are not included.
- `Hex.IntBase16` reads a pair of hex digits directly. `Hex.IntBase16Agrees` proves this equal to the general `int(s, 16)` rule, which covers ASCII input only.
- Prompts.Json: a number, array or object value carries its `str()` text and whether it is zero or empty as given. Python's formatting of floats and nested containers is not modelled.
- JSON decoding is an oracle parameter (`decode`). `Proposals.ReversedBracketsGiveEmpty` assumes, as `json.loads` does, that decoding the empty text fails.
- `propose_images`, `propose_mv_images`, `auto_select_taste`'s model call and every other language-model call are oracles or left out. Only the answer handling is modelled.
- Storage listing is an oracle parameter (`store`). `get_images`, `get_image_thumbnails` and `delete_image` (image I/O) and the write side of `upload_image` are left out.
- Template wording is abbreviated to bracketed labels. The placeholders, their names and their order follow the source templates.
- `render_proposal_prompt` (a plain fill of configuration values and image-size defaults) is not modelled, and neither is `STYLE_TRANSFER_PREFIX`.
- `add_title_overlay`'s drawing, fonts and text wrapping, alpha compositing, LANCZOS resampling, `thumbnail`, `image_to_bytes` and `bytes_to_image` are rendering and I/O. Only the overlay's two default colours are modelled.
- Geometry.LogoPosition: the logo size (`int(width * size_pct)` and the aspect-scaled height) is floating point, so it is taken as input.
- Geometry.CropBoxSound: proved for `padding >= 0` only. With a negative padding the source's box can be empty or inverted, and no bounds are claimed.
- Geometry.PasteInside: assumes the thumbnail fits the canvas, which `thumbnail` guarantees and the model does not derive.
- Streamlit pages, `app.py`, the configuration manager and resource caching are UI and persistence, outside the core.
