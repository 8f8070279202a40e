/** The image bookkeeping: the URL-keyed image cache, the rewriting of a
    chapter's `<img>` tags to the fetched local copies, and the cover image
    and cover page.  The network fetch is a function from URL to bytes and
    detected media type. */
module Images {
  import opened Text
  import opened Tokens
  import opened Epub

  /** What `FetchImage(url)` gives: the bytes and their detected type. */
  datatype Fetched = Fetched(content: string, mimetype: string)

  /** The Id of the `counter`-th image of chapter `n`: `Img{counter}_Ch{n}`. */
  function ImageId(counter: int, n: int): string
  {
    "Img" + Itoa(counter) + "_Ch" + Itoa(n)
  }

  /** Distinct counters or chapters give distinct Ids. */
  lemma ImageIdInjective(c1: int, n1: int, c2: int, n2: int)
    requires ImageId(c1, n1) == ImageId(c2, n2)
    ensures c1 == c2 && n1 == n2
  {
    var a1, b1 := Itoa(c1), Itoa(n1);
    var a2, b2 := Itoa(c2), Itoa(n2);
    ItoaShape(c1);
    ItoaShape(c2);
    var s := ImageId(c1, n1);
    assert s == "Img" + (a1 + ['_'] + ("Ch" + b1));
    assert s == "Img" + (a2 + ['_'] + ("Ch" + b2));
    assert s[3..] == a1 + ['_'] + ("Ch" + b1) == a2 + ['_'] + ("Ch" + b2);
    MarkerSplit(a1, "Ch" + b1, a2, "Ch" + b2, '_');
    assert b1 == ("Ch" + b1)[2..] == ("Ch" + b2)[2..] == b2;
    ItoaInjective(c1, c2);
    ItoaInjective(n1, n2);
  }

  /** The file made for an image fetched from `url` on a cache miss. */
  function NewImage(url: string, n: int, counter: int, fetch: string -> Fetched): EpubFile
  {
    var id := ImageId(counter, n);
    EpubFile("", fetch(url).content, "OEBPS/" + (ImageDir + id), fetch(url).mimetype, id)
  }

  /** Where images go, under `OEBPS/`; the chapters, under `Text/`, refer to
      them as `../Images/`. */
  const ImageDir := "Images/"

  /** The outcome of one cached fetch: the file, the new counter and the
      new cache. */
  datatype Lookup = Lookup(file: EpubFile, counter: int, cache: map<string, EpubFile>)

  /** `FetchImageCached(url, n, imgCounter)` on the cache `cache`.  After
      it the URL is cached under the returned file and no other entry
      changed; a cached URL gives its entry back and leaves the counter, a
      new one is numbered by the counter, which moves on by one. */
  function CachedFetch(cache: map<string, EpubFile>, url: string, n: int, counter: int,
                       fetch: string -> Fetched): (r: Lookup)
    ensures r.cache == cache[url := r.file]
    ensures url in cache ==> r.file == cache[url] && r.counter == counter
    ensures url !in cache ==> r.counter == counter + 1
                              && r.file.id == ImageId(counter, n) && r.file.filename == "OEBPS/" + (ImageDir + r.file.id)
                              && r.file.content == fetch(url).content && r.file.mimetype == fetch(url).mimetype
  {
    if url in cache then Lookup(cache[url], counter, cache)
    else
      var f := NewImage(url, n, counter, fetch);
      Lookup(f, counter + 1, cache[url := f])
  }

  /** A fetched image as `ReplaceImgTags` sees it: its attributes and its
      own HTML text. */
  datatype Img = Img(attrs: map<string, string>, html: string)

  /** `img.Attrs()["src"]`; the empty text when there is none. */
  function Src(img: Img): string
  {
    if "src" in img.attrs then img.attrs["src"] else ""
  }

  /** The attributes copied onto the rewritten tag, in this order. */
  const CopiedAttrs := ["width", "alt", "height"]

  /** `name='value' ` for each name of `names` that `attrs` has. */
  function AttrText(attrs: map<string, string>, names: seq<string>): string
  {
    if |names| == 0 then ""
    else
      AttrText(attrs, names[..|names| - 1])
      + (if Last(names) in attrs then Last(names) + "='" + attrs[Last(names)] + "' " else "")
  }

  /** The local `<img>` tag written for `img` stored as `f`. */
  function Tag(f: EpubFile, img: Img): string
  {
    "<img src='../" + EpubstripOebpsPrefix(f.filename) + "' " + AttrText(img.attrs, CopiedAttrs) + "/>"
  }

  /** The bookkeeping of the `ReplaceImgTags` loop: the image counter,
      the files added so far, and the cache. */
  datatype Books = Books(counter: int, addto: seq<EpubFile>, cache: map<string, EpubFile>)

  /** The bookkeeping of one image: a cache miss adds the new file. */
  function BookStep(b: Books, img: Img, n: int, fetch: string -> Fetched): Books
  {
    var l := CachedFetch(b.cache, Src(img), n, b.counter, fetch);
    Books(l.counter, if l.counter != b.counter then b.addto + [l.file] else b.addto, l.cache)
  }

  function BooksRun(b: Books, imgs: seq<Img>, n: int, fetch: string -> Fetched): Books
  {
    if |imgs| == 0 then b else BookStep(BooksRun(b, imgs[..|imgs| - 1], n, fetch), Last(imgs), n, fetch)
  }

  /** The variables of the `ReplaceImgTags` loop. */
  datatype ReplaceState = ReplaceState(html: string, buf: string, books: Books)

  /** The tag written for `img` when the bookkeeping stands at `b`. */
  function TagAt(b: Books, img: Img, n: int, fetch: string -> Fetched): string
  {
    Tag(CachedFetch(b.cache, Src(img), n, b.counter, fetch).file, img)
  }

  /** One image: fetch it through the cache, append its tag to the buffer,
      and replace the image's HTML by the whole buffer. */
  function ReplaceStep(s: ReplaceState, img: Img, n: int, fetch: string -> Fetched): ReplaceState
  {
    var buf := s.buf + TagAt(s.books, img, n, fetch);
    ReplaceState(ReplaceAll(s.html, img.html, buf), buf, BookStep(s.books, img, n, fetch))
  }

  /** The loop over `imgs`. */
  function ReplaceRun(s: ReplaceState, imgs: seq<Img>, n: int, fetch: string -> Fetched): ReplaceState
  {
    if |imgs| == 0 then s else ReplaceStep(ReplaceRun(s, imgs[..|imgs| - 1], n, fetch), Last(imgs), n, fetch)
  }

  lemma ReplaceRunSnoc(s: ReplaceState, imgs: seq<Img>, k: nat, n: int, fetch: string -> Fetched)
    requires k < |imgs|
    ensures ReplaceRun(s, imgs[..k + 1], n, fetch) == ReplaceStep(ReplaceRun(s, imgs[..k], n, fetch), imgs[k], n, fetch)
  {
    assert imgs[..k + 1][..k] == imgs[..k] && Last(imgs[..k + 1]) == imgs[k];
  }

  /** The bookkeeping of the loop does not depend on the text. */
  lemma {:induction false} ReplaceBooks(s: ReplaceState, imgs: seq<Img>, n: int, fetch: string -> Fetched)
    ensures ReplaceRun(s, imgs, n, fetch).books == BooksRun(s.books, imgs, n, fetch)
  {
    if |imgs| > 0 {
      ReplaceBooks(s, imgs[..|imgs| - 1], n, fetch);
    }
  }

  /** The Go global `ImageCache`. */
  class ImageCache {
    var entries: map<string, EpubFile>

    constructor()
      ensures entries == map[]
    {
      entries := map[];
    }

    /** `FetchImageCached(url, n, imgCounter)`. */
    method FetchImageCached(url: string, n: int, imgCounter: int, fetch: string -> Fetched)
      returns (ifile: EpubFile, counter: int)
      modifies this
      ensures Lookup(ifile, counter, entries) == CachedFetch(old(entries), url, n, imgCounter, fetch)
    {
      if url in entries {
        ifile := entries[url];
        counter := imgCounter;
      } else {
        var imgId := ImageId(imgCounter, n);
        var img := fetch(url);
        ifile := EpubFile("", img.content, "OEBPS/" + (ImageDir + imgId), img.mimetype, imgId);
        entries := entries[url := ifile];
        counter := imgCounter + 1;
      }
    }

    /** `ReplaceImgTags(html, imgs, imgCounter, n, addto)`: with no images
        the inputs come back unchanged; otherwise the loop over `imgs`. */
    method ReplaceImgTags(html: string, imgs: seq<Img>, imgCounter: int, n: int, addto: seq<EpubFile>,
                          fetch: string -> Fetched)
      returns (html': string, counter: int, addto': seq<EpubFile>)
      modifies this
      ensures |imgs| == 0 ==> html' == html && counter == imgCounter && addto' == addto && entries == old(entries)
      ensures var s := ReplaceRun(ReplaceState(html, "", Books(imgCounter, addto, old(entries))), imgs, n, fetch);
              html' == s.html && Books(counter, addto', entries) == s.books
    {
      if |imgs| == 0 {
        return html, imgCounter, addto;
      }
      ghost var start := ReplaceState(html, "", Books(imgCounter, addto, entries));
      html', counter, addto' := html, imgCounter, addto;
      var imgBuf := "";
      for k := 0 to |imgs|
        invariant ReplaceState(html', imgBuf, Books(counter, addto', entries)) == ReplaceRun(start, imgs[..k], n, fetch)
      {
        var img := imgs[k];
        ReplaceRunSnoc(start, imgs, k, n, fetch);
        var ifile, ic := FetchImageCached(Src(img), n, counter, fetch);
        if ic != counter {
          addto' := addto' + [ifile];
          counter := ic;
        }
        var tag := WriteTag(ifile, img);
        imgBuf := imgBuf + tag;
        html' := ReplaceAll(html', img.html, imgBuf);
      }
      assert imgs[..|imgs|] == imgs;
    }

    /** `AddCoverImage(url, files)`: the fetched cover image and the cover
        page appended, the image also cached under `url`. */
    method AddCoverImage(url: string, files: seq<EpubFile>, fetch: string -> Fetched) returns (r: seq<EpubFile>)
      modifies this
      ensures r == files + [CoverImage(fetch(url)), CoverPage()]
      ensures entries == old(entries)[url := CoverImage(fetch(url))]
    {
      var cover := fetch(url);
      var c := EpubFile("", cover.content, "OEBPS/" + (ImageDir + "cover"), cover.mimetype, "cover-image");
      r := files + [c];
      entries := entries[url := c];
      var cfile := EpubContentPreamble("cover");
      cfile := cfile + CoverTag;
      cfile := cfile + EpubContentEnd();
      r := r + [EpubFile("Cover", cfile, "OEBPS/" + CoverPagePath, Xhtml, "cover")];
    }
  }

  /** The writes of one rewritten tag; the attribute loop runs over
      `CopiedAttrs`. */
  method WriteTag(ifile: EpubFile, img: Img) returns (tag: string)
    ensures tag == Tag(ifile, img)
  {
    tag := "<img src='../" + EpubstripOebpsPrefix(ifile.filename) + "' ";
    ghost var head := tag;
    for j := 0 to |CopiedAttrs|
      invariant tag == head + AttrText(img.attrs, CopiedAttrs[..j])
    {
      var a := CopiedAttrs[j];
      assert CopiedAttrs[..j + 1][..j] == CopiedAttrs[..j] && Last(CopiedAttrs[..j + 1]) == a;
      if a in img.attrs {
        tag := tag + (a + "='" + img.attrs[a] + "' ");
      } else {
        tag := tag + "";
      }
    }
    assert CopiedAttrs[..|CopiedAttrs|] == CopiedAttrs;
    tag := tag + "/>";
  }

  // -----------------------------------------------------------------------
  // What the loop keeps.

  lemma BooksRunSnoc(b: Books, imgs: seq<Img>, n: int, fetch: string -> Fetched)
    requires |imgs| > 0
    ensures BooksRun(b, imgs, n, fetch) == BookStep(BooksRun(b, imgs[..|imgs| - 1], n, fetch), Last(imgs), n, fetch)
  {
  }

  /** The files added are exactly the cache misses, each numbered by the
      counter in turn: the `j`-th new file is image `counter + j` of the
      chapter, stored under `Images/`.  Earlier entries of `addto` stay. */
  lemma {:induction false} AddedFiles(b: Books, imgs: seq<Img>, n: int, fetch: string -> Fetched)
    ensures var r := BooksRun(b, imgs, n, fetch);
            b.addto <= r.addto
            && r.counter == b.counter + (|r.addto| - |b.addto|)
            && forall j :: |b.addto| <= j < |r.addto| ==>
                 r.addto[j].id == ImageId(b.counter + (j - |b.addto|), n)
                 && r.addto[j].filename == "OEBPS/" + (ImageDir + r.addto[j].id)
  {
    if |imgs| > 0 {
      AddedFiles(b, imgs[..|imgs| - 1], n, fetch);
      BooksRunSnoc(b, imgs, n, fetch);
      AddedStep(b, BooksRun(b, imgs[..|imgs| - 1], n, fetch), Last(imgs), n, fetch);
    }
  }

  /** The files added so far, after `b`, are numbered from `b.counter` on. */
  predicate Numbered(b: Books, r: Books, n: int)
  {
    b.addto <= r.addto
    && r.counter == b.counter + (|r.addto| - |b.addto|)
    && forall j :: |b.addto| <= j < |r.addto| ==>
         r.addto[j].id == ImageId(b.counter + (j - |b.addto|), n)
         && r.addto[j].filename == "OEBPS/" + (ImageDir + r.addto[j].id)
  }

  lemma AddedStep(b: Books, p: Books, img: Img, n: int, fetch: string -> Fetched)
    requires Numbered(b, p, n)
    ensures Numbered(b, BookStep(p, img, n, fetch), n)
  {
    var l := CachedFetch(p.cache, Src(img), n, p.counter, fetch);
    if l.counter != p.counter {
      var r := BookStep(p, img, n, fetch);
      assert r.addto == p.addto + [l.file];
      assert forall j :: |b.addto| <= j < |p.addto| ==> r.addto[j] == p.addto[j];
    }
  }

  /** Entries already in the cache stay as they were. */
  lemma {:induction false} CacheKept(b: Books, imgs: seq<Img>, n: int, fetch: string -> Fetched)
    ensures forall u :: u in b.cache ==>
              u in BooksRun(b, imgs, n, fetch).cache && BooksRun(b, imgs, n, fetch).cache[u] == b.cache[u]
  {
    if |imgs| > 0 {
      CacheKept(b, imgs[..|imgs| - 1], n, fetch);
      BooksRunSnoc(b, imgs, n, fetch);
    }
  }

  lemma StepCaches(p: Books, img: Img, n: int, fetch: string -> Fetched)
    ensures Src(img) in BookStep(p, img, n, fetch).cache
    ensures p.cache.Keys <= BookStep(p, img, n, fetch).cache.Keys
  {
  }

  /** Every image of the chapter is cached afterwards, under its `src`. */
  lemma {:induction false} CachedAfter(b: Books, imgs: seq<Img>, n: int, fetch: string -> Fetched)
    ensures forall img :: img in imgs ==> Src(img) in BooksRun(b, imgs, n, fetch).cache
  {
    if |imgs| > 0 {
      var front := imgs[..|imgs| - 1];
      var p := BooksRun(b, front, n, fetch);
      CachedAfter(b, front, n, fetch);
      StepCaches(p, Last(imgs), n, fetch);
      BooksRunSnoc(b, imgs, n, fetch);
      assert imgs == front + [Last(imgs)];
    }
  }

  /** The cache gains no key but the images' `src` values. */
  lemma {:induction false} CachedOnlySources(b: Books, imgs: seq<Img>, n: int, fetch: string -> Fetched)
    ensures var r := BooksRun(b, imgs, n, fetch);
            forall u :: u in r.cache && u !in b.cache ==> exists i :: 0 <= i < |imgs| && Src(imgs[i]) == u
  {
    if |imgs| > 0 {
      var front := imgs[..|imgs| - 1];
      CachedOnlySources(b, front, n, fetch);
      BooksRunSnoc(b, imgs, n, fetch);
      var r := BooksRun(b, imgs, n, fetch);
      forall u | u in r.cache && u !in b.cache
        ensures exists i :: 0 <= i < |imgs| && Src(imgs[i]) == u
      {
        if u != Src(Last(imgs)) {
          var i :| 0 <= i < |front| && Src(front[i]) == u;
          assert imgs[i] == front[i];
        }
      }
    }
  }

  /** The files added have pairwise distinct Ids. */
  lemma AddedDistinct(b: Books, imgs: seq<Img>, n: int, fetch: string -> Fetched)
    ensures var r := BooksRun(b, imgs, n, fetch);
            forall j, k :: |b.addto| <= j < k < |r.addto| ==> r.addto[j].id != r.addto[k].id
  {
    var r := BooksRun(b, imgs, n, fetch);
    AddedFiles(b, imgs, n, fetch);
    forall j, k | |b.addto| <= j < k < |r.addto|
      ensures r.addto[j].id != r.addto[k].id
    {
      if r.addto[j].id == r.addto[k].id {
        ImageIdInjective(b.counter + (j - |b.addto|), n, b.counter + (k - |b.addto|), n);
      }
    }
  }

  /** A rewritten tag points from the `Text/` folder to the image's
      file: a newly fetched image is found at `../Images/` and its Id. */
  lemma NewImageTag(url: string, n: int, counter: int, fetch: string -> Fetched, img: Img)
    ensures "<img src='../" + (ImageDir + ImageId(counter, n)) + "' " <= Tag(NewImage(url, n, counter, fetch), img)
  {
    var f := NewImage(url, n, counter, fetch);
    StripJoined(ImageDir + f.id);
    var head := "<img src='../" + (ImageDir + f.id) + "' ";
    assert Tag(f, img) == head + (AttrText(img.attrs, CopiedAttrs) + "/>");
  }

  // -----------------------------------------------------------------------
  // The cover.

  /** The cover image file `AddCoverImage` makes. */
  function CoverImage(img: Fetched): EpubFile
  {
    EpubFile("", img.content, "OEBPS/" + (ImageDir + "cover"), img.mimetype, "cover-image")
  }

  /** Where the cover page goes, under `OEBPS/`. */
  const CoverPagePath := "Text/Cover.xhtml"

  /** The cover page `AddCoverImage` makes. */
  function CoverPage(): EpubFile
  {
    EpubFile("Cover", EpubContentPreamble("cover") + CoverTag + EpubContentEnd(),
             "OEBPS/" + CoverPagePath, Xhtml, "cover")
  }

  /** The tag on the cover page. */
  const CoverTag := "<img src='../" + (ImageDir + "cover") + "' />"

  /** The cover page's tag points from `Text/` to the cover image's file. */
  lemma CoverTagPath(img: Fetched)
    ensures CoverTag == "<img src='../" + EpubstripOebpsPrefix(CoverImage(img).filename) + "' />"
  {
    StripJoined(ImageDir + "cover");
  }

  /** The cover page shows the cover image, by the path from `Text/` to its
      file, right after the preamble. */
  lemma CoverPageShowsCover(img: Fetched)
    ensures OccursAt(CoverPage().content, "<img src='../" + EpubstripOebpsPrefix(CoverImage(img).filename) + "' />",
                     |EpubContentPreamble("cover")|)
  {
    CoverTagPath(img);
    var pre, end := EpubContentPreamble("cover"), EpubContentEnd();
    Framed(pre, CoverTag, end, "");
    assert pre + CoverTag + end + "" == CoverPage().content;
  }

  /** With the cover added, the package document carries the cover meta
      and a guide to the cover page. */
  lemma CoverInPackage(author: string, identifier: string, title: string, date: string,
                       files: seq<EpubFile>, img: Fetched)
    ensures var p := OpfOf(author, identifier, title, date, files + [CoverImage(img), CoverPage()]);
            p.coverMeta && p.guide == Some(CoverPagePath)
  {
    var r := files + [CoverImage(img), CoverPage()];
    var mid := files + [CoverImage(img)];
    assert r[..|r| - 1] == mid;
    assert LastWith(r, "cover") == CoverPage();
    assert LastWith(r, "cover-image") == LastWith(mid, "cover-image") == CoverImage(img);
    StripJoined(CoverPagePath);
  }

  /** Adding the cover leaves the table of contents as it was, unless the
      fetched image claims to be XHTML. */
  lemma CoverOutsideToc(files: seq<EpubFile>, img: Fetched)
    requires img.mimetype != Xhtml
    ensures NavMap(files + [CoverImage(img), CoverPage()]) == NavMap(files)
  {
    var r := files + [CoverImage(img), CoverPage()];
    var mid := files + [CoverImage(img)];
    assert r[..|r| - 1] == mid && mid[..|mid| - 1] == files;
    assert NavMap(mid) == NavMap(files) + [] == NavMap(files);
    assert NavMap(r) == NavMap(mid) + [] == NavMap(mid);
  }

  // -----------------------------------------------------------------------
  // Cover URL.

  /** `CClawcoverurl(a)`: the large-file URL when the image has one,
      otherwise the `src` that the tag rewriting would fetch. */
  function CClawcoverurl(a: map<string, string>): (r: string)
    ensures "data-large-file" in a ==> r == a["data-large-file"]
    ensures "data-large-file" !in a ==> r == Src(Img(a, ""))
  {
    if "data-large-file" in a then a["data-large-file"]
    else if "src" in a then a["src"]
    else ""
  }

  // -----------------------------------------------------------------------
  // The tag buffer.

  /** The tags written for `imgs` one after the other, from the
      bookkeeping `b` on. */
  function TagsOf(b: Books, imgs: seq<Img>, n: int, fetch: string -> Fetched): string
  {
    if |imgs| == 0 then ""
    else
      var front := imgs[..|imgs| - 1];
      TagsOf(b, front, n, fetch) + TagAt(BooksRun(b, front, n, fetch), Last(imgs), n, fetch)
  }

  /** The buffer is never emptied: after the loop it holds the tags of all
      the images, so each image's HTML is replaced by its own tag preceded
      by the tags of every image before it. */
  lemma {:induction false} BufferAccumulates(s: ReplaceState, imgs: seq<Img>, n: int, fetch: string -> Fetched)
    ensures ReplaceRun(s, imgs, n, fetch).buf == s.buf + TagsOf(s.books, imgs, n, fetch)
  {
    if |imgs| > 0 {
      var front := imgs[..|imgs| - 1];
      BufferAccumulates(s, front, n, fetch);
      ReplaceBooks(s, front, n, fetch);
      var w := ReplaceRun(s, front, n, fetch);
      assert ReplaceRun(s, imgs, n, fetch).buf == w.buf + TagAt(w.books, Last(imgs), n, fetch);
    }
  }

  /** The page made of two different images: as written, the second one is
      replaced by both tags, so the first image shows twice. */
  lemma SecondImageRepeatsFirst(b: Books, img1: Img, img2: Img, n: int, fetch: string -> Fetched)
    requires |img1.html| > 0 && |img2.html| > 0
    requires !Contains(img2.html, img1.html)
    requires !Contains(TagAt(b, img1, n, fetch) + img2.html[..|img2.html| - 1], img2.html)
    ensures var t1, t2 := TagAt(b, img1, n, fetch), TagAt(BookStep(b, img1, n, fetch), img2, n, fetch);
            ReplaceRun(ReplaceState(img1.html + img2.html, "", b), [img1, img2], n, fetch).html == t1 + (t1 + t2)
            && IntendedRun(ReplaceState(img1.html + img2.html, "", b), [img1, img2], n, fetch).html == t1 + t2
  {
    var t1, t2 := TagAt(b, img1, n, fetch), TagAt(BookStep(b, img1, n, fetch), img2, n, fetch);
    var s0 := ReplaceState(img1.html + img2.html, "", b);
    TwoSteps(s0, img1, img2, n, fetch);
    assert "" + t1 == t1;
    ReplaceBoth(img1.html, img2.html, t1, t1 + t2);
    ReplaceBoth(img1.html, img2.html, t1, t2);
  }

  /** Two images, one step after the other, in both loops. */
  lemma TwoSteps(s: ReplaceState, img1: Img, img2: Img, n: int, fetch: string -> Fetched)
    ensures ReplaceRun(s, [img1, img2], n, fetch) == ReplaceStep(ReplaceStep(s, img1, n, fetch), img2, n, fetch)
    ensures IntendedRun(s, [img1, img2], n, fetch) == IntendedStep(IntendedStep(s, img1, n, fetch), img2, n, fetch)
  {
    var xs := [img1, img2];
    assert xs[..0] == [] && xs[..2] == xs;
    ReplaceRunSnoc(s, xs, 0, n, fetch);
    ReplaceRunSnoc(s, xs, 1, n, fetch);
    IntendedRunSnoc(s, xs, 0, n, fetch);
    IntendedRunSnoc(s, xs, 1, n, fetch);
  }

  /** The evident intent: each image's HTML replaced by its own tag only,
      the buffer started afresh for every image. */
  function IntendedStep(s: ReplaceState, img: Img, n: int, fetch: string -> Fetched): ReplaceState
  {
    var buf := TagAt(s.books, img, n, fetch);
    ReplaceState(ReplaceAll(s.html, img.html, buf), buf, BookStep(s.books, img, n, fetch))
  }

  function IntendedRun(s: ReplaceState, imgs: seq<Img>, n: int, fetch: string -> Fetched): ReplaceState
  {
    if |imgs| == 0 then s else IntendedStep(IntendedRun(s, imgs[..|imgs| - 1], n, fetch), Last(imgs), n, fetch)
  }

  lemma IntendedRunSnoc(s: ReplaceState, imgs: seq<Img>, k: nat, n: int, fetch: string -> Fetched)
    requires k < |imgs|
    ensures IntendedRun(s, imgs[..k + 1], n, fetch) == IntendedStep(IntendedRun(s, imgs[..k], n, fetch), imgs[k], n, fetch)
  {
    assert imgs[..k + 1][..k] == imgs[..k] && Last(imgs[..k + 1]) == imgs[k];
  }

  /** The intended loop keeps the same bookkeeping as the written one: the
      same files fetched, numbered and cached. */
  lemma {:induction false} IntendedSameBooks(s: ReplaceState, imgs: seq<Img>, n: int, fetch: string -> Fetched)
    ensures IntendedRun(s, imgs, n, fetch).books == ReplaceRun(s, imgs, n, fetch).books
  {
    if |imgs| > 0 {
      IntendedSameBooks(s, imgs[..|imgs| - 1], n, fetch);
    }
  }

  /** In the intended loop the text put in place of an image is its own
      tag: the page `p + img.html + q`, where the image occurs once and
      only there, becomes `p + tag + q`. */
  lemma IntendedOwnTag(s: ReplaceState, img: Img, p: string, q: string, n: int, fetch: string -> Fetched)
    requires |img.html| > 0 && s.html == p + img.html + q
    requires !Contains(p + img.html[..|img.html| - 1], img.html) && !Contains(q, img.html)
    ensures IntendedStep(s, img, n, fetch).html == p + TagAt(s.books, img, n, fetch) + q
  {
    ReplaceAllOnce(p, img.html, q, TagAt(s.books, img, n, fetch));
  }
}
