# ln2epub core, modelled in Dafny

`ln2epub` downloads light-novel chapters from translation sites and packs
them into EPUB 2 books. This project models the parts of the program that
are sequential logic with no I/O in them.

- **Token-stream extractors (`_archive.go`).**
  - `HtmlFind` captures the first element named `tag` whose attributes pass
    a condition.
  - `HtmlFindAll` captures every such element. It keeps a stack of open
    captures and returns the fragments in closing order.
  - `HtmlKeyInAttr`, `HtmlCheckAttrs` and `HtmlFindByAttr` are the attribute
    predicates these use.
  - The token filter of `SoapfGetChapter` is meant to drop advertisement
    blocks, stop at the separator, and close the output with `</div>`. As
    written, every start tag opens a skipped region, not just an
    advertisement's (see Findings). The model keeps both the filter as
    written and the guarded one.
- **EPUB packaging (`ln2epub.go`).**
  - `EpubContentOpf` writes the OPF package document, with its manifest,
    spine, cover meta and guide.
  - `EpubTocNcx` writes the NCX navigation map.
  - `EpubAddExtra` assembles the final file list.
  - The fixed texts: `container.xml`, `mimetype`, and the XHTML preamble
    and end.
  - `EpubstripOebpsPrefix`, `EpubFileName`, `HtmlValueContains` and the
    `Soafpis*` class tests.
- **Image bookkeeping (`ln2epub.go`).**
  - The image cache: `FetchImageCached`.
  - `ReplaceImgTags` rewrites `<img>` tags to point at files stored in the
    book.
  - `AddCoverImage` adds the cover image and the cover page.
  - `CClawcoverurl` picks the cover URL.

Modules, one file each:

- `Text` (`text.dfy`) models Go's `strings.Split`, `TrimPrefix`,
  `TrimSuffix`, `ReplaceAll`, `strconv.Itoa` and `path.Base`.
- `Tokens` (`tokens.dfy`) holds the token datatype. A token has a kind, a
  name, attributes, and a `render` string standing for `Token.String()`. A
  stream is a finite sequence whose end stands for the tokenizer's `io.EOF`.
- `Attrs` (`attrs.dfy`), `Find` (`find.dfy`), `FindAll` (`find_all.dfy`)
  and `ChapterFilter` (`chapter_filter.dfy`) are the extractors.
- `Epub` (`epub.dfy`) is the packaging.
- `Images` (`images.dfy`) is the image bookkeeping.

How each loop is modelled:

- The loops of `HtmlFind`, `HtmlFindAll`, the `SoapfGetChapter` filter,
  `EpubContentOpf`, `EpubTocNcx` and `ReplaceImgTags` are Dafny methods
  with their own loops.
- The loops inside the attribute predicates are modelled as recursion or
  as membership in `Split`. These predicates are the attribute scan of
  `HtmlFind` (`AttrLoop`), `HtmlKeyInAttr`, `HtmlCheckAttrs` and
  `HtmlValueContains`.
- The method is proved equal to a specification function: a step function
  folded over the input, or a structured value (`Package`, `NavPoint` list)
  with a renderer.
- The properties the source promises are proved about that function as
  lemmas.
- The global `ImageCache` map is the field of class `Images.ImageCache`.
  The methods that update it declare `modifies this`.

## Model

| member | source | states |
|---|---|---|
| Text.JoinSplit | ln2epub.go:526-538 | joining the pieces of `strings.Split(s, " ")` with the separator gives back `s`, so the class-list pieces are exactly the text between single spaces |
| Text.SplitPiecesFree | ln2epub.go:527-533 | no piece produced by `strings.Split` contains the separator |
| Text.SplitWithoutSeparator | ln2epub.go:534-536 | a value without a space splits into itself alone |
| Text.TrimPrefix | ln2epub.go:54-56 | `strings.TrimPrefix`: when the prefix is present the input is prefix + result, otherwise the input comes back unchanged |
| Text.TrimSuffix | ln2epub.go:389-391 | `strings.TrimSuffix`: when the suffix is present the input is result + suffix, otherwise unchanged |
| Text.NatDigitsRoundTrip | ln2epub.go:194 | the decimal digits `strconv.Itoa` writes for a natural number read back as that number |
| Text.ItoaShape | ln2epub.go:369 | `%d` / `strconv.Itoa` text is non-empty, has a leading `-` exactly for negatives, is digits otherwise, and never contains `_` |
| Text.ItoaInjective | ln2epub.go:194 | different integers get different decimal texts |
| Text.NatDigitsInjective | ln2epub.go:194 | different naturals get different digit strings |
| Text.ReplaceAllAbsent | ln2epub.go:437-439 | `strings.ReplaceAll` leaves a text without the pattern unchanged |
| Text.ReplaceAllHead | ln2epub.go:437-439 | a text that starts with the pattern and has no other occurrence gets only that occurrence replaced |
| Text.ReplaceAllOnce | ln2epub.go:437-439 | `a + pat + rest`, where `pat` occurs only after `a`, becomes `a + repl + rest` |
| Text.ReplaceBoth | ln2epub.go:437-439 | two replacements in a row on `p1 + p2`, each pattern occurring once, give `r1 + r2` |
| Text.StripTrailing | ln2epub.go:390 | removes exactly the trailing run of one character: the result is a prefix, does not end with it, and only that character was removed |
| Text.AfterLast | ln2epub.go:390 | the part after the last `/` is a suffix without `/`, and is the whole text when there is no `/` |
| Text.PathBase | ln2epub.go:390 | `path.Base` is never empty, is `/` or has no `/`, and is `.` for the empty path |
| Attrs.HtmlValueContains | ln2epub.go:526-538 | true iff `str` is one of the pieces of `value` split on single spaces; plain equality when `value` has no space |
| Attrs.ValueContainsNoSpaceTarget | ln2epub.go:526-538 | a target containing a space never matches, since no piece contains one |
| Attrs.HtmlKeyInAttr | _archive.go:66-82 | the closure holds of an attribute `(k, v)` exactly when `k` is `key` and `value` is one of the space-separated pieces of `v` |
| Attrs.KeyInAttrMeaning | _archive.go:66-82 | the `HtmlKeyInAttr` closure is false for every other key; for `key` it is class-list membership, and equality when the value has no space |
| Attrs.HtmlCheckAttrs | _archive.go:91-101 | the nil condition accepts every attribute list, including the empty one; a real condition rejects the empty list |
| Attrs.CheckAttrsMeaning | _archive.go:91-101 | a non-nil condition accepts iff some attribute pair satisfies it |
| Attrs.SoafpisAd | ln2epub.go:540-542 | true iff `code-block` is one of the classes |
| Attrs.SoafpisEnd | ln2epub.go:544-548 | true iff one of `wp-block-buttons`, `sd-like`, `daddy` is one of the classes |
| Attrs.SoafpisSettingsButton | ln2epub.go:550-552 | true iff `pre-bar` is one of the classes |
| Attrs.SoafpisImg | ln2epub.go:554-556 | true iff `wp-block-image` is one of the classes |
| Find.HtmlFind | _archive.go:6-62 | the loop over the token stream returns `Find`, the fold of the per-token step: depth bookkeeping, `tagDepth` recording, the `continue`s, and the stop at the closing end tag |
| Find.HtmlFindByAttr | _archive.go:85-87 | is `HtmlFind` with the `HtmlKeyInAttr(key, value)` condition |
| Find.IdleRun | _archive.go:56-58 | nothing is written before a match, whatever tokens come |
| Find.NoMatchIsEmpty | _archive.go:6-62 | when no start tag matches, the result is `""` |
| Find.SeekRun | _archive.go:19-33 | tokens before the match only move the depth |
| Find.CaptureRun | _archive.go:19-58 | inside a capture every token is written except a self-closing tag named `tag`, and the depth moves by the tokens' balance |
| Find.CloseRun | _archive.go:50-58 | the end tag named `tag` at the recorded depth is written and ends the capture |
| Find.OpenRun | _archive.go:19-33 | a match after non-matching, never-underflowing tokens records `tagDepth` = its depth; under the nil condition its tag is not written |
| Find.FindElement | _archive.go:6-62 | the result for `pre, open, body, close, post` is the opening tag (absent under nil), the body without self-closing `tag` tokens, and the close |
| Find.NestedMatchOverwrites | _archive.go:20-33 | a nested matching start tag overwrites `tagDepth`, so the capture ends at the INNER element's close and holds the outer start, the tokens between, and the inner element |
| Find.StrayEndTagsStopSearch | _archive.go:50-54 | two end tags named `tag` before any start tag end the search: the depth reaches -1 = `tagDepth`, and the result is `""` |
| FindAll.Flush | _archive.go:144-150 | popping a frame keeps `tagDepth` and `h` parallel and one shorter |
| FindAll.AllStep | _archive.go:112-150 | one turn of the loop keeps `len(tagDepth) == len(h)` (so `n` = top index) whenever it does not panic |
| FindAll.FindAllRun | _archive.go:112-151 | the whole loop keeps the stack discipline |
| FindAll.WriteAll | _archive.go:139-142 | the inner loop appends the token's rendering to every open buffer |
| FindAll.DispatchToken | _archive.go:116-137 | the `switch` updates depth, stack and `push` as `Dispatch` says, and fails exactly where `tagDepth[n]` is out of range |
| FindAll.HtmlFindAll | _archive.go:103-154 | the loop returns `FindAll`, the fold of the per-token step, with the out-of-range index as `IndexOutOfRange` |
| FindAll.PassIdle | _archive.go:125-137 | with no frame open, tokens that neither match nor close `tag` only move the depth |
| FindAll.PassOpen | _archive.go:139-142 | with frames open, quiet tokens are appended to every buffer and move the depth |
| FindAll.OpenStep | _archive.go:125-131 | a matching start tag pushes a frame at the new depth whose buffer starts with that tag, and the tag is appended to every older buffer |
| FindAll.CloseStep | _archive.go:132-150 | an end tag named `tag` at the top frame's depth pops only that frame and yields its buffer plus the end tag |
| FindAll.SelfClosingFragment | _archive.go:119-124 | a matching self-closing token yields a fragment equal to its own rendering, which is also appended to every enclosing frame |
| FindAll.ElementRun | _archive.go:103-154 | a matching element with a balanced, quiet body yields `open + body + close` and leaves the stack as it was |
| FindAll.TopElement | _archive.go:103-154 | an element after idle tokens, from an empty stack, yields exactly its fragment |
| FindAll.Siblings | _archive.go:103-154 | a sequence of sibling elements yields their fragments in order |
| FindAll.Nested | _archive.go:132-150 | for nested matches the inner fragment comes first, then the outer one, which contains the inner |
| FindAll.OpenFrom | _archive.go:126-143 | from any state with no frame open, a matching start tag followed by tokens that stay inside it leaves exactly one frame open holding their text, and the fragments already returned are unchanged |
| FindAll.Truncated | _archive.go:117-118 | after any stretch that ends with no frame open, a match cut off by the end of the stream adds nothing: the result is the fragments returned before it |
| FindAll.UnmatchedClosePanics | _archive.go:133 | an end tag named `tag` with no frame open indexes `tagDepth[-1]`: the run fails |
| FindAll.UnmatchedDivPanics | _archive.go:127-133 | `<div></div>` with a condition the `div` fails makes `HtmlFindAll` panic; the guarded version returns no fragment |
| FindAll.GuardedDispatch | _archive.go:116-137 | the guarded switch agrees with the written one wherever that one does not fail, and only moves the depth where it would |
| FindAll.GuardedRunAgrees | _archive.go:112-151 | the guarded loop gives the same state as the written one on every run that does not fail |
| FindAll.GuardedFindAllAgrees | _archive.go:103-154 | the guarded extractor returns the same fragments as `HtmlFindAll` whenever that one does not panic |
| FindAll.GuardedQuiet | _archive.go:112-151 | with no frame open, quiet tokens leave the guarded run's buffers and results alone |
| FindAll.GuardedNoMatch | _archive.go:103-154 | without any match, the guarded extractor returns no fragment, for every stream |
| ChapterFilter.SwitchToken | _archive.go:179-205 | the `switch` of one turn updates `loop`, `skip`, `inAd`, `depth` and `adDepth` as written, fallthroughs included |
| ChapterFilter.FilterChapter | _archive.go:170-216 | the filter loop returns `Chapter`, the fold of the per-token step plus `</div>`, and its output ends with `</div>` |
| ChapterFilter.SoapfGetChapter | _archive.go:158-217 | the chapter text is the filter applied to the tokens of the first `div` of class `entry-content`, and ends with `</div>` |
| ChapterFilter.StepKeepsInv | _archive.go:179-211 | each turn keeps `skip == inAd`, with `adDepth == -1` outside an advertisement |
| ChapterFilter.RunKeepsInv | _archive.go:175-212 | the whole loop keeps that invariant |
| ChapterFilter.StartTagSkipped | _archive.go:182-192 | every start tag, through the `fallthrough`, sets `skip` and `inAd`, records `adDepth` = the new depth, and is not written |
| ChapterFilter.SkipEndsOnlyAtAdEnd | _archive.go:193-211 | inside a skipped region, skipping stops exactly at an end `div`/`span` at `adDepth`, and that token is not written |
| ChapterFilter.SeparatorStops | _archive.go:201-205 | the `hr` separator of class `wp-block-separator` ends the loop and is not written |
| ChapterFilter.SkippedRun | _archive.go:206-211 | inside a skipped region, tokens without an end `div`/`span` write nothing |
| ChapterFilter.WrittenRun | _archive.go:206-208 | outside one, tokens with no start tag and no separator are written as they are |
| ChapterFilter.StartTagHidesRest | _archive.go:182-211 | after a start tag, nothing more is written when no `div`/`span` end tag follows |
| ChapterFilter.LatestStartDecides | _archive.go:182-211 | a later start tag moves the end of the skipped region to its own depth: `<div><span>x</span>more</div>` gives `more</div>` then `</div>` |
| ChapterFilter.TextElementLost | _archive.go:182-192 | a plain element `<p>text</p>` is lost entirely as written, but kept by the intended filter |
| ChapterFilter.ParagraphLost | _archive.go:182-192 | the stream `<p>hi</p>` gives `</div>` as written and `<p>hi</p></div>` as intended |
| ChapterFilter.IntendedSwitch | _archive.go:179-205 | the intended switch only counts depth for a start tag that is not an advertisement, and otherwise is the written switch |
| ChapterFilter.IntendedAppend | _archive.go:175-212 | the intended loop over `a + b` runs over `a` then over `b` |
| ChapterFilter.IntendedPlain | _archive.go:175-212 | the intended loop writes plain tokens (no advertisement, no separator) as they are |
| ChapterFilter.IntendedSkipped | _archive.go:193-211 | in the intended loop, an advertisement body that stays inside the block writes nothing |
| ChapterFilter.AdBlockSkipped | _archive.go:185-200 | an advertisement block as a whole leaves the intended filter's state unchanged |
| ChapterFilter.AdBlockRemoved | _archive.go:170-216 | the intended filter removes an advertisement block and keeps the plain text around it |
| ChapterFilter.PlainKept | _archive.go:170-216 | the intended filter keeps a plain stream whole and adds `</div>` |
| ChapterFilter.IntendedAgrees | _archive.go:179-205 | on streams without start tags the intended and written filters agree |
| Epub.EpubstripOebpsPrefix | ln2epub.go:54-56 | removes one leading `OEBPS/` if present, otherwise returns the input; the result is always a suffix of the input |
| Epub.StripJoined | ln2epub.go:54-56 | stripping `OEBPS/` + rest gives rest |
| Epub.StripOnlyOnce | ln2epub.go:54-56 | only one `OEBPS/` is removed |
| Epub.LastWith | ln2epub.go:75-81 | the cover remembered by the manifest loop is the zero record unless some file has that Id |
| Epub.LastWithMeaning | ln2epub.go:75-81 | the remembered file has the Id iff some file has it, and then it is the LAST file with it |
| Epub.Manifest | ln2epub.go:74-94 | one manifest item per file, in input order |
| Epub.SpineSelected | ln2epub.go:130-138 | the spine lists exactly the Ids of the XHTML files, in input order |
| Epub.WriteItem | ln2epub.go:82-92 | the text of one `<item>` line, with `properties='cover-image'` only for the cover image |
| Epub.ManifestLoop | ln2epub.go:74-94 | the manifest text is `<manifest>`, one item per file, and the fixed `ncx` item; the loop also remembers the last `cover` and `cover-image` files |
| Epub.SpineLoop | ln2epub.go:130-139 | the spine text holds one `itemref` per XHTML file |
| Epub.EpubContentOpf | ln2epub.go:66-148 | the OPF text is the rendering of the package value `OpfOf(...)`, whose properties follow |
| Epub.OpfManifest | ln2epub.go:74-94 | the manifest has one item per file, in input order, with the file's Id, stripped filename and mimetype; only `cover-image` is marked as the cover image |
| Epub.OpfCoverMeta | ln2epub.go:116-123 | `<meta name='cover'>` is written iff some file has Id `cover-image` |
| Epub.OpfGuide | ln2epub.go:140-145 | a guide appears iff some file has Id `cover`, and it points at the last such file's stripped filename |
| Epub.OpfSpine | ln2epub.go:130-138 | the spine has an `itemref` for exactly the XHTML files, in input order |
| Epub.NavMapSelected | ln2epub.go:180-204 | one nav point per XHTML file that is not the cover page, in input order, numbered from 1 |
| Epub.WriteNavPoint | ln2epub.go:191-202 | the text of one `navPoint` |
| Epub.EpubTocNcx | ln2epub.go:155-208 | the NCX text is the rendering of the nav map of the files |
| Epub.PlayOrders | ln2epub.go:180-204 | the `playOrder` values are exactly 1, 2, …, k, and their texts are pairwise different |
| Epub.TocIsSpineWithoutCover | ln2epub.go:130-138 | the NCX lists exactly the spine's Ids with the `cover` ones removed |
| Epub.EpubContainerXml | ln2epub.go:211-219 | `container.xml` points at `OEBPS/content.opf` |
| Epub.EpubMimetype | ln2epub.go:222-224 | the mimetype file is `application/epub+zip` and a newline |
| Epub.EpubContentPreamble | ln2epub.go:227-236 | the preamble holds `<title>` + title + `</title>` at a fixed place and ends with `<body>` |
| Epub.EpubContentEnd | ln2epub.go:239-243 | the ending closes `body` and `html` |
| Epub.EpubAddExtra | ln2epub.go:271-298 | the result is `[mimetype] + files + [content.opf, toc.ncx, container.xml]`, with the OPF and NCX computed from the original files |
| Epub.Placement | ln2epub.go:271-298 | in that list `mimetype` is first, the files keep their places shifted by one, and the length grows by 4 |
| Epub.EpubFileName | ln2epub.go:389-391 | the name ends in `.epub` and has something before it |
| Epub.FileNameOfSeries | ln2epub.go:389-391 | a series URL ending in `/name`, with or without a trailing `/`, gives `name.epub` |
| Images.ImageIdInjective | ln2epub.go:369 | the Id `Img{counter}_Ch{n}` determines both the counter and the chapter |
| Images.CachedFetch | ln2epub.go:365-381 | a hit returns the cached file with the counter and cache unchanged; a miss stores a new file with Id `Img{counter}_Ch{n}` under `OEBPS/Images/`, with the fetched content and mimetype, and counts one more; no other key changes |
| Images.ImageCache.FetchImageCached | ln2epub.go:365-381 | the method returns the file and counter, and leaves the cache, as `CachedFetch` says |
| Images.ImageCache.ReplaceImgTags | ln2epub.go:411-443 | no images: everything unchanged; otherwise the page, counter, added files and cache are those of the fold `ReplaceRun` over the images |
| Images.WriteTag | ln2epub.go:424-435 | the tag written for one image: its local path, then `width`, `alt`, `height` where present |
| Images.ReplaceBooks | ln2epub.go:417-423 | the counter, added files and cache do not depend on the page text |
| Images.AddedFiles | ln2epub.go:418-423 | the added files are appended after the old ones, the counter grows by their number, and the j-th new file is image `counter + j` of the chapter under `Images/` |
| Images.CacheKept | ln2epub.go:368-377 | entries already cached stay as they were |
| Images.CachedAfter | ln2epub.go:368-377 | afterwards every image's `src` is cached |
| Images.CachedOnlySources | ln2epub.go:368-377 | every new cache key is the `src` of one of the images |
| Images.AddedDistinct | ln2epub.go:369-373 | the files added by one call have pairwise different Ids |
| Images.NewImageTag | ln2epub.go:424-426 | the tag for a fresh image points at `../Images/Img{counter}_Ch{n}` |
| Images.ImageCache.AddCoverImage | ln2epub.go:446-470 | appends the cover image and the cover page, and caches the cover image under its URL |
| Images.CoverTagPath | ln2epub.go:450-458 | the fixed tag of the cover page is the tag for the stripped path of the cover image |
| Images.CoverPageShowsCover | ln2epub.go:456-459 | the cover page shows the cover image right after the preamble |
| Images.CoverInPackage | ln2epub.go:446-470 | after `AddCoverImage` the OPF has the cover meta and a guide pointing at `Text/Cover.xhtml` |
| Images.CoverOutsideToc | ln2epub.go:446-470 | the cover page and a non-XHTML cover image add nothing to the NCX |
| Images.CClawcoverurl | ln2epub.go:1734-1740 | `data-large-file` when present, otherwise `src` (the empty string when that is missing too) |
| Images.BufferAccumulates | ln2epub.go:415-439 | the tag buffer is never emptied: after the loop it holds the tags of all the images, in order |
| Images.SecondImageRepeatsFirst | ln2epub.go:415-439 | on a page of two different images, the second is replaced by both tags as written, and by its own tag as intended |
| Images.IntendedSameBooks | ln2epub.go:417-423 | the intended loop fetches, numbers and caches the same files as the written one |
| Images.IntendedOwnTag | ln2epub.go:424-439 | in the intended loop an image that occurs once is replaced by its own tag only |

## Left out

- Network I/O is not modelled: `fetch`, `Request`, `PostForm` and `FetchImage`. Image fetching is the function parameter `fetch` (content and detected mimetype), so it is deterministic. A failed fetch, which Go ignores and turns into empty content, is one more value of that function.
- The `Request` call and the `entry-content` lookup at the top of `SoapfGetChapter` take the page as tokens. Re-tokenizing the found text is the parameter `tokenize`.
- The HTML tokenizer and `Token.String()` are a foreign library. A token carries its rendering.
- Tokenizer errors other than `io.EOF` are not modelled. With those the Go loops would never stop; the stream here is finite and ends at EOF.
- `time.Now().Format("2022-01-18")` in `EpubContentOpf` is the parameter `date`. That layout is not Go's reference date, so the real text is not a plain date either.
- `EpubCreateFile` (zip and file output) and `main` are not modelled.
- The site adapters are not modelled, nor `SoupFindParent` and `SoupTag`. They need the DOM library and the network.
- The regular-expression cleaners are not modelled.
- `[]byte` contents are `string`s. The `<img>` nodes are values `Img(attrs, html)`, with `html` standing for `img.HTML()`.
- The multi-line literals of the OPF, NCX, container and preamble texts are written as concatenations of their lines. The text is the same.
- The images of one `ReplaceImgTags` call come as a sequence, so aliasing between soup nodes does not arise.
- Find.NestedMatchOverwrites: stated for one nested match, not for arbitrary nesting.
- FindAll.Siblings: stated for top-level siblings whose bodies hold no further match, with no tokens after the last one.
- FindAll.Nested: stated for one level of nesting, an inner match inside an outer one with quiet tokens around it.
- FindAll.Truncated: stated for a single frame opened when no other frame is open, with a body that holds no further match; frames cut off inside an enclosing open frame are not covered.

## Findings

| source | as written | input that shows it | evidently intended | confidence | as-written member | corrected member |
|---|---|---|---|---|---|---|
| _archive.go:127-133 | an end tag named `tag` while no frame is open evaluates `tagDepth[n]` with `n == -1` and panics | tag `div`, condition class `x`, stream `<div></div>`: the start tag fails the condition, so its end tag finds no frame | an end tag with no open frame only lowers the depth | high (not executed) | FindAll.UnmatchedDivPanics | FindAll.GuardedFindAllAgrees |
| _archive.go:182-192 | the `fallthrough` after `depth += 1` enters the advertisement arm for every start tag. Every start tag is skipped, and writing resumes only after a `div`/`span` end at the latest start tag's depth | stream `<p>hi</p>` gives `</div>` | only an advertisement `div`/`span` opens a skipped region, so the paragraph is kept: `<p>hi</p></div>` | high (not executed) | ChapterFilter.ParagraphLost | ChapterFilter.PlainKept |
| ln2epub.go:415-439 | `imgBuf` is created once, before the loop, and never reset, so each image is replaced by the tags of every image so far | a page holding two different images `A` then `B`: it becomes `tagA` + `tagA` + `tagB` | each image is replaced by its own tag: `tagA` + `tagB` | high (not executed) | Images.SecondImageRepeatsFirst | Images.IntendedOwnTag |
