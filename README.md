# HWPX document parser — a Dafny model

This project models the core of a converter from HWPX word-processor files to
a JSON "document spec", plus three helpers of the companion document
generator. An HWPX file is a zip of XML parts. The converter does five things:

- It reads the header part's registries: the font faces per writing system,
  the character shapes (height, bold, Hangul face), the paragraph shapes
  (alignment) and the border fills (background colour).
- It walks each section part in document order. Every `hp:p` with visible
  text becomes a paragraph block. Every `hp:tbl` it reaches becomes a table
  block, and the walk does not descend into tables.
- It turns each paragraph into segments: runs of text with a resolved style,
  where adjacent runs with equal styles are merged.
- It resolves each table cell into merge properties, the text and segments
  of the cell's own paragraphs, and the tables nested inside the cell.
- It assembles the blocks into one dictionary keyed `문단1`, `문단2`, … and
  `표1`, `표2`, ….

From the generator the model takes three helpers:

- `hex_to_rgb`;
- the inline-markup scanner `parse_segments` (`**bold**`, `_italic_`,
  `*italic*`, `<u>…</u>`);
- `heuristic_style_for_key`.

The model does no I/O. An XML element is a value: a tag in Clark notation
`{uri}local`, an attribute map and a list of children. An absent zip member
is `None`. The section parts are a list of root elements, already opened and
sorted. A Python exception is an `Err` value. Where the source relies on the
identity of an element (`p in p_in_nested`), the model identifies an element
by its path of child indices from the cell. Each loop of the source is a
method with its invariants. That method is proved equal to a recursive
specification function, and the lemmas state what that function promises.

Modules:

| module | models |
|---|---|
| `Wrappers` | `Option` and `Result` |
| `Text` | Python's `isdigit`, `int`, `strip`, `join`, `upper` and `lower` on ASCII |
| `Xml` | `find`, `findall`, `iter` and `.//tag` on element values |
| `HeaderStyles` | the header registries, colours, border fills |
| `Segments` | `paragraph_to_segments`, `extract_text_runs`, `paragraph_to_markdown` |
| `Cells` | `parse_tc_props`, `parse_single_table`, `parse_tc_contents` |
| `Sections` | `walk` and `parse_sections_to_blocks` |
| `Assembler` | `blocks_to_document_spec` |
| `Markup` | `parse_segments` |
| `Doclib` | `hex_to_rgb`, `heuristic_style_for_key` |
| `Seqs` | small sequence facts used by the loop proofs |

## Model

| member | source | states |
|---|---|---|
| Xml.Get | parser.py:41-42 | `el.get(name)` is present exactly when the attribute is, and then it is the attribute's value |
| Xml.Find | parser.py:29-31 | `find` gives `None` exactly when no child has the tag; otherwise it gives the first child with that tag: no earlier child carries it |
| Xml.LocalName | parser.py:458 | the local part of a Clark tag holds no `}`, and a tag without a namespace is its own local name |
| Xml.IterSound | parser.py:457 | every node that `iter()` yields is the element found at its path |
| Xml.IterComplete | parser.py:457 | every element reachable by a path is yielded by `iter()`, and by the descendant search when the path is not empty |
| Xml.FindAllDeepSound | parser.py:312 | every node that `.//tag` finds is a proper descendant with that tag |
| Xml.FindAllDeepComplete | parser.py:312 | every proper descendant with the tag is found by `.//tag` |
| Text.PyIntOfDigits | parser.py:67-68 | `int()` of a digit string is its decimal value |
| Text.NatToStringInjective | parser.py:501 | different counters give different key suffixes |
| Text.ConcatAppend | parser.py:315 | `"".join` of two lists laid end to end is the join of the first followed by the join of the second |
| HeaderStyles.AssignDomain | parser.py:40-43 | a key is in the dictionary iff some record in the list has that key |
| HeaderStyles.AssignLastWins | parser.py:40-43 | for a repeated id, the last record with that id is what the dictionary keeps |
| HeaderStyles.AssignFrom | parser.py:40-43 | every dictionary entry comes from some record in the list |
| HeaderStyles.CollectAll | parser.py:37-44 | a pass with no error gives one value per record, in order |
| HeaderStyles.CollectFirstError | parser.py:41 | the first record whose `int()` fails aborts the pass with that error |
| HeaderStyles.AlignOf | parser.py:85-93 | upper-cased `RIGHT` gives right, `CENTER` center, `JUSTIFY` or `BOTH` justify, anything else left; each is an iff |
| HeaderStyles.HeightOf | parser.py:51-52 | a height is read iff the attribute is a digit string; the number read is the decimal value of the digits, leading zeros included, and its spelling is the attribute when there is no leading zero |
| HeaderStyles.DigitsCanonical | parser.py:51-52 | a digit string without a leading zero is the decimal spelling of its value |
| HeaderStyles.CharShapeRules | parser.py:49-76 | a character shape has a height iff the attribute is digits; it is bold iff an `hh:bold` child exists; a face name is set only from the HANGUL group at the `fontRef hangul` id, and whenever `fontRef` has a digit `hangul` id that the HANGUL group holds, the face name is that entry |
| HeaderStyles.CharShapeLookup | parser.py:47-76 | in a pass with no error, every `charPr` whose id no later record repeats is in the table under its id with its own shape |
| HeaderStyles.ReadFontGroup | parser.py:37-44 | the loop over one `fontface` gives the font-id-to-face map of the specification, or the first `int()` error |
| HeaderStyles.ReadFontTable | parser.py:34-44 | the loop over the `fontfaces` gives the specification's font table, or the first error |
| HeaderStyles.ReadBold | parser.py:55-60 | boldness is the existence of an `hh:bold` child |
| HeaderStyles.ReadCharShapes | parser.py:47-76 | the loop over the `charPr` records gives the specification's character-shape table, or the first error |
| HeaderStyles.ReadAlign | parser.py:83-95 | the alignment of a `paraPr` is that of its `hh:align` child's `horizontal` attribute, and left without one |
| HeaderStyles.ReadParaShapes | parser.py:79-96 | the loop over the `paraPr` records gives the specification's paragraph-shape table, or the first error |
| HeaderStyles.ParseStylesFromHeader | parser.py:11-98 | an absent header or `refList` gives two empty maps, a bad id gives an error, and otherwise the two registries of the specification |
| HeaderStyles.NormalizeColor | parser.py:479-490 | a value is kept iff it starts with `#` and has length 7 or 9; the kept value is `#` plus the last six characters |
| HeaderStyles.NormalizeIdempotent | parser.py:479-490 | normalising a normalised colour changes nothing |
| HeaderStyles.FirstCandidateAt | parser.py:457-462 | the first candidate in document order is the one used |
| HeaderStyles.FirstCandidateNone | parser.py:457-476 | a source gives no colour iff no element offers one |
| HeaderStyles.PickFillColor | parser.py:446-477 | any colour picked is normalised (`#` and six characters) |
| HeaderStyles.PickFillPriority | parser.py:446-477 | the `faceColor` of a `winBrush` other than `none` comes first, then a gradation `color`, then a `hatchColor`; each takes the first candidate in document order |
| HeaderStyles.PickFillAbsent | parser.py:446-477 | without any candidate the fill colour is `None` |
| HeaderStyles.FillEntriesNormalized | parser.py:404-411 | every fill colour recorded is normalised |
| HeaderStyles.BorderFillsNormalized | parser.py:391-412 | every colour in the table `parse_table_styles_from_header` returns is normalised |
| HeaderStyles.FillEntriesFrom | parser.py:404-411 | every recorded fill comes from a `borderFill` with a digit id, under that id, with that element's colour |
| HeaderStyles.FillEntriesInclude | parser.py:404-411 | every `borderFill` with a digit id is recorded |
| HeaderStyles.ParseTableStylesFromHeader | parser.py:391-412 | an absent header is an error; an absent `refList` or `borderFills` gives an empty map; otherwise the border-fill table of the specification |
| Segments.TextParts | parser.py:157-161 | empty `hp:t` texts are skipped |
| Segments.ParagraphAlign | parser.py:149-153 | a digit `paraPrIDRef` the table holds gives that paragraph shape's alignment; any alignment other than left comes from such a reference |
| Segments.RunStyle | parser.py:165-175 | a segment's style has the paragraph's alignment; it has a face name or height exactly when the run's resolved character shape has a truthy one, and then that value; it has a boldness exactly when the shape resolves, and then the shape's |
| Segments.CoalesceText | parser.py:177-181 | merging adjacent equal styles keeps the text |
| Segments.CoalesceCharStyles | parser.py:177-181 | merging keeps every character's style |
| Segments.CoalesceWellFormed | parser.py:177-181 | after merging, no segment is empty and no two neighbours share a style |
| Segments.CoalesceStyles | parser.py:177-181 | every merged segment's style is that of a non-empty run |
| Segments.SegmentationUnique | parser.py:177-181 | a well-formed segmentation is fixed by its text and its per-character styles |
| Segments.CoalesceIdempotent | parser.py:177-181 | merging a well-formed list changes nothing |
| Segments.SegmentsOfProperties | parser.py:141-183 | a paragraph's segments are well formed, spell the concatenated run texts, and all carry the paragraph's alignment |
| Segments.ParagraphToSegments | parser.py:141-183 | the loop gives the specification's segments |
| Segments.ExtractTextMatchesSegments | parser.py:188-197 | `extract_text_runs` is the stripped segment text followed by the paragraph's direct `hp:t` texts |
| Segments.ExtractTextRuns | parser.py:188-197 | the loop gives the specification's text |
| Segments.MdFoldFacts | parser.py:110-135 | after the runs, the bold state is that of the last run, `**` markers are open exactly then, and the text chunks spell the run texts |
| Segments.MdPartsBalanced | parser.py:110-137 | after the closing marker the `**` markers are balanced and the chunks spell the run texts |
| Segments.MarkdownWithoutBold | parser.py:100-139 | with runs and none bold, the Markdown is the stripped concatenation of the run texts |
| Segments.ParagraphToMarkdown | parser.py:100-139 | the method gives the specification's Markdown |
| Segments.MarkdownPieces | parser.py:110-137 | the loop's pieces are the specification's strings |
| Cells.DigitAttr | parser.py:427-441 | an attribute is read iff present and a digit string, and then as its value |
| Cells.CellFill | parser.py:422-425 | a cell has a fill colour only through a digit `borderFillIDRef` present in the registry |
| Cells.TcProps | parser.py:416-443 | spans default to 1, size parts to `None`, and the background is the cell's border fill |
| Cells.TcPropsColor | parser.py:416-443 | with a normalised registry, a cell's background is normalised |
| Cells.GatherFacts | parser.py:312-318 | while gathering, the style is that of the first segment, chunks are non-empty and spell the segments' text, and no segment is empty |
| Cells.GatherParts | parser.py:312-318 | the gathered segments are the non-empty paragraphs' own segment lists laid end to end, each well formed, with one chunk per list holding its text |
| Cells.CellFacts | parser.py:312-322 | a cell has a style iff it has segments, and then it is the first segment's; its text is empty iff there are no segments; it is the chunks joined by spaces |
| Cells.GatherParagraphs | parser.py:312-318 | the loop gives the specification's chunks, style and segments |
| Cells.ParseCell | parser.py:303-329 | the method gives the specification's cell |
| Cells.GridOf | parser.py:331-335 | no row of the grid is empty |
| Cells.ParseRow | parser.py:303-329 | the loop gives the specification's row |
| Cells.ParseSingleTable | parser.py:287-342 | the loop gives the specification's grid |
| Cells.NestedPathsExact | parser.py:357-363 | a path is in `p_in_nested` iff it leads to an `hp:p` with an `hp:tbl` strictly between the cell and it |
| Cells.OwnParagraphsExact | parser.py:373-377 | a cell's own paragraphs are exactly its descendant `hp:p` not inside a nested table |
| Cells.TcContentsFacts | parser.py:344-386 | the nested tables are one grid per descendant `hp:tbl`, in order; style and text agree with the segments as in a plain cell |
| Cells.CollectNestedPaths | parser.py:360-363 | the loop gives the specification's set of nested paragraphs |
| Cells.ParseNestedTables | parser.py:366-371 | the loop gives one grid per nested table |
| Cells.GatherOwnParagraphs | parser.py:374-383 | the loop gathers exactly the paragraphs not in the set |
| Cells.ParseTcContents | parser.py:344-386 | the method gives the specification's cell contents |
| Sections.WalkIsVisit | parser.py:215-282 | the walk's output is the blocks of the nodes visited in pre-order, stopping at tables |
| Sections.VisitedExact | parser.py:215-282 | a node is visited iff it is reachable by its path and no table lies strictly above it |
| Sections.WalkOk | parser.py:250-277 | every paragraph block has stripped non-empty content that its well-formed segments spell; every table block has rows, none empty |
| Sections.WalkStopsAtTable | parser.py:218-267 | at a table the walk gives at most one block and does not look inside |
| Sections.Walk | parser.py:215-282 | the recursive method appends what the specification walk gives |
| Sections.WalkTable | parser.py:218-267 | the method appends the table's block, if it has rows |
| Sections.WalkParagraph | parser.py:269-277 | the method appends the paragraph's block, if it has text |
| Sections.ParseSectionRow | parser.py:232-248 | the loop gives the specification's row |
| Sections.ParseTableRows | parser.py:225-255 | the loop keeps exactly the non-empty rows |
| Sections.SectionElement | parser.py:211-213 | the walk starts at the `hp:section` child when there is one, and at the root otherwise |
| Sections.SectionsOk | parser.py:199-284 | the blocks of all sections satisfy the block invariant |
| Sections.ParseSectionsToBlocks | parser.py:199-284 | the loop over sections gives the specification's blocks |
| Assembler.ParaStyleOf | parser.py:502-510 | a paragraph entry takes its first segment's face, height and bold, defaulting to 바탕체, 11 pt and not bold, and its alignment |
| Assembler.EntryOf | parser.py:500-529 | a paragraph block becomes a paragraph entry with its content and segments; a table block becomes a table entry with its rows and one left alignment per column of the first row |
| Assembler.DocumentOrder | parser.py:495-533 | the document has one entry per block, in block order, each under its block's key |
| Assembler.DocumentPrefix | parser.py:499-530 | the document of the first j blocks is the first j entries of the document: an entry never changes once written |
| Assembler.KeysDistinct | parser.py:499-530 | no two blocks share a key, so no entry is overwritten |
| Assembler.ParagraphKeyNumber | parser.py:497-513 | the key `문단n` goes to the block with exactly n-1 paragraphs before it |
| Assembler.TableKeyNumber | parser.py:497-530 | the key `표n` goes to the block with exactly n-1 tables before it |
| Assembler.SectionsHaveFirstRows | parser.py:517 | every table from the walk has a first row, so `data[0]` exists |
| Assembler.BlocksToDocumentSpec | parser.py:495-533 | the loop with its two counters gives the specification's document |
| Markup.MatchExact | doclib.py:26-29 | a pattern's lazy group is the shortest that works, and a pattern fails iff no group length works |
| Markup.FirstMatchPriority | doclib.py:35-39 | the pattern used is the first in the list that matches |
| Markup.FirstMatchSound | doclib.py:35-39 | what the pattern loop finds is an opener, a non-empty group without newlines, and a closer |
| Markup.ScanValid | doclib.py:31-57 | the scan is a leftmost-first reading of the text |
| Markup.ValidUnique | doclib.py:31-57 | there is only one such reading |
| Markup.ValidRender | doclib.py:31-57 | writing the tokens back with their markers gives the text |
| Markup.ParseSegmentsFacts | doclib.py:24-58 | the scan is the unique reading, it renders back to the text, the segments hold the text without markers, no segment is empty, and none is both bold and italic |
| Markup.SegOf | doclib.py:46-50 | a segment is bold iff from `**`, italic iff from `_` or `*`; underline sets no flag |
| Markup.NoMarkupOneSegment | doclib.py:54-57 | a text where no pattern matches is one plain segment, or none when empty |
| Markup.MatchPatterns | doclib.py:34-39 | the loop over the patterns gives the first match |
| Markup.ParseSegments | doclib.py:24-58 | the loop gives the specification's segments |
| Doclib.HexToRgbDigits | doclib.py:7-12 | with six hex digits after the leading `#`s, the channels are the three pairs' values, each in 0..255 |
| Doclib.HexToRgbRange | doclib.py:7-12 | any channel the function returns lies in -15..255 |
| Doclib.HexToRgbNegative | doclib.py:7-12 | `#-f-f-f` gives (-15, -15, -15) |
| Doclib.HexToRgbShort | doclib.py:7-12 | four or fewer characters after the `#`s is an error |
| Doclib.RgbToHex | doclib.py:7-12 | the partner encoder gives `#` and six hex digits |
| Doclib.HexRoundTrip | doclib.py:7-12 | decoding the encoding of any colour in 0..255 gives it back |
| Doclib.HeuristicStyleForKey | doclib.py:245-254 | the one key maps to 돋움 20 bold centred for `title`, 바탕체 10 centred for `footer`, and 바탕체 11 left otherwise |

## Behaviour of the code worth knowing

The model follows the code in each case below.

- `parse_table_styles_from_header` (parser.py:391-412) has no `try`. An
  absent header part raises there, so `BorderFillsOf` gives
  `Err(MissingHeader)`. `parse_styles_from_header` catches the same error and
  returns empty maps.
- `colSpan` and `rowSpan` are read with `isdigit`, so a span of 0 is kept.
- Rows are not padded. A table's rows may have different lengths, and the
  column count is that of the first row (parser.py:517).
- A paragraph in a table nested two levels deep appears in the grids of both
  nested tables that contain it. `parse_tc_contents` collects every
  descendant `hp:tbl` (parser.py:357), and `parse_single_table` reads every
  descendant `hp:p` (parser.py:312).
- Merging is per paragraph. A cell's segment list may hold two neighbours
  with the same style, coming from different paragraphs.
- `hex_to_rgb` does not guarantee channels in 0..255. `int(…, 16)` accepts a
  sign, so `#-f-f-f` gives (-15, -15, -15). A short or non-hex input raises,
  modelled as `None`.
- `pick_fill_color_from_borderfill` takes `hatchColor` whatever its value
  (parser.py:474-476). The comment at parser.py:470 says a white hatch colour
  is skipped, but no test for white is made.
- `walk`'s `in_table` flag is always false when it is read, because a table
  returns before its children are visited. The model keeps the parameter.

## Left out

- Opening the zip, parsing XML, sorting the section names, writing JSON:
  these are I/O. The model starts from element values and a sorted list of
  section roots.
- `parse_hwpx_to_spec` and the debug helpers (parser.py:536-613): they only
  wire I/O together or print. The generator's other functions drive the
  word-processor application through a foreign library.
- `isdigit`, `int`, `upper` and `lower` are modelled on ASCII. Python also
  accepts other Unicode digits and case mappings.
- `Text.PyInt`: covers optional surrounding whitespace, a sign, and decimal
  digits with single underscores. It does not cover other Unicode digits.
- Heights are kept in hundredths of a point as whole numbers. The source
  divides by 100 into a float. The default height of 11 pt is 1100 here. In
  `Doclib.HeuristicStyleForKey`, heights are in points, as in that source.
- The dictionaries the source builds are records here. The constant parts of
  the output are not modelled: the `"type"` keys, the table block's empty
  `"style"` and the `"document"` wrapper. The table entry's `cell_size` of
  11 is 1100, in hundredths like every other height. The five
  parallel lists of a table block are one list of cell records.
- The regular expressions of `parse_segments` are written out by hand: an
  opener, a lazy group of at least one character other than a newline, and a
  closer. `Markup.Scan` is stated for any matcher. The lemmas that concern
  `parse_segments` use its own pattern loop.
- `Doclib.HexToRgb`: a Python exception is modelled as `None`, without its
  exception type.
