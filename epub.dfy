/** The EPUB 2.0.1 text builders: the OPF package document (manifest,
    spine, guide), the NCX table of contents, the fixed container, mimetype
    and XHTML wrapper texts, and the assembly of the final file list. */
module Epub {
  import opened Text
  import opened Tokens

  datatype Option<T> = None | Some(value: T)

  /** `EpubFile`; `content` stands for the file's bytes. */
  datatype EpubFile = EpubFile(title: string, content: string, filename: string, mimetype: string, id: string)

  /** Go's zero `EpubFile`. */
  const NoFile := EpubFile("", "", "", "", "")

  const Xhtml := "application/xhtml+xml"

  /** Where the package document lives; `EpubContainerXml` points here. */
  const OpfPath := "OEBPS/content.opf"

  /** `EpubstripOebpsPrefix`: one leading `OEBPS/` removed, if present. */
  function EpubstripOebpsPrefix(filename: string): (r: string)
    ensures "OEBPS/" <= filename ==> filename == "OEBPS/" + r
    ensures !("OEBPS/" <= filename) ==> r == filename
    ensures EndsWith(filename, r)
  {
    var r := TrimPrefix(filename, "OEBPS/");
    assert filename[|filename| - |r|..] == r;
    r
  }

  /** A name under `OEBPS/` loses exactly that prefix. */
  lemma StripJoined(rest: string)
    ensures EpubstripOebpsPrefix("OEBPS/" + rest) == rest
  {
    var f := "OEBPS/" + rest;
    assert f[..6] == "OEBPS/";
    assert f[6..] == rest;
  }

  /** Only one prefix is removed. */
  lemma StripOnlyOnce(rest: string)
    ensures EpubstripOebpsPrefix("OEBPS/OEBPS/" + rest) == "OEBPS/" + rest
  {
    assert "OEBPS/" <= "OEBPS/OEBPS/" + rest;
    assert "OEBPS/OEBPS/" + rest == "OEBPS/" + ("OEBPS/" + rest);
  }

  // -----------------------------------------------------------------------
  // Selections from the file list.

  predicate IsXhtml(f: EpubFile)
  {
    f.mimetype == Xhtml
  }

  /** A page that gets an entry in the table of contents. */
  predicate IsChapterPage(f: EpubFile)
  {
    f.mimetype == Xhtml && f.id != "cover"
  }

  /** The indices of the files that satisfy `p`, in increasing order. */
  function Selected(files: seq<EpubFile>, p: EpubFile -> bool): (r: seq<nat>)
    ensures forall k :: 0 <= k < |r| ==> r[k] < |files| && p(files[r[k]])
    ensures forall k, l :: 0 <= k < l < |r| ==> r[k] < r[l]
    ensures forall i :: 0 <= i < |files| && p(files[i]) ==> i in r
  {
    if |files| == 0 then []
    else
      var q := Selected(files[..|files| - 1], p);
      if p(Last(files)) then q + [|files| - 1] else q
  }

  /** The last file with Id `id`, or the zero file when there is none (the
      loop variables `cover` and `coverImg`). */
  function LastWith(files: seq<EpubFile>, id: string): (r: EpubFile)
    ensures r.id != id ==> r == NoFile
  {
    if |files| == 0 then NoFile
    else if Last(files).id == id then Last(files)
    else LastWith(files[..|files| - 1], id)
  }

  /** `LastWith` finds a file exactly when one has the Id, and then the
      last one. */
  lemma {:induction false} LastWithMeaning(files: seq<EpubFile>, id: string)
    requires id != ""
    ensures LastWith(files, id).id == id <==> exists j :: 0 <= j < |files| && files[j].id == id
    ensures LastWith(files, id).id == id ==>
              exists j :: 0 <= j < |files| && files[j] == LastWith(files, id)
                          && forall k :: j < k < |files| ==> files[k].id != id
  {
    if |files| > 0 && Last(files).id != id {
      var front := files[..|files| - 1];
      LastWithMeaning(front, id);
      assert forall j :: 0 <= j < |front| ==> front[j] == files[j];
    }
  }

  // -----------------------------------------------------------------------
  // The package document.

  /** A manifest `<item>`. */
  datatype Item = Item(id: string, href: string, mediaType: string, coverImage: bool)

  function ItemOf(f: EpubFile): Item
  {
    Item(f.id, EpubstripOebpsPrefix(f.filename), f.mimetype, f.id == "cover-image")
  }

  /** One item per file, in input order. */
  function Manifest(files: seq<EpubFile>): (r: seq<Item>)
    ensures |r| == |files|
    ensures forall i :: 0 <= i < |files| ==> r[i] == ItemOf(files[i])
  {
    if |files| == 0 then [] else Manifest(files[..|files| - 1]) + [ItemOf(Last(files))]
  }

  /** The spine: the Ids of the XHTML files, in input order. */
  function Spine(files: seq<EpubFile>): seq<string>
  {
    if |files| == 0 then []
    else Spine(files[..|files| - 1]) + (if IsXhtml(Last(files)) then [Last(files).id] else [])
  }

  /** The spine lists exactly the selected files' Ids. */
  lemma {:induction false} SpineSelected(files: seq<EpubFile>)
    ensures |Spine(files)| == |Selected(files, IsXhtml)|
    ensures forall k :: 0 <= k < |Spine(files)| ==> Spine(files)[k] == files[Selected(files, IsXhtml)[k]].id
  {
    if |files| > 0 {
      var front := files[..|files| - 1];
      SpineSelected(front);
      assert forall k :: 0 <= k < |Selected(front, IsXhtml)| ==> Selected(front, IsXhtml)[k] < |front|;
    }
  }

  /** What the package document says. */
  datatype Package = Package(author: string, identifier: string, title: string, date: string,
                             coverMeta: bool, manifest: seq<Item>, spine: seq<string>, guide: Option<string>)

  /** The package document of `files`: the cover meta when some file is the
      cover image, a guide to the last cover page. */
  function OpfOf(author: string, identifier: string, title: string, date: string, files: seq<EpubFile>): Package
  {
    var cover := LastWith(files, "cover");
    Package(author, identifier, title, date,
            LastWith(files, "cover-image").id == "cover-image",
            Manifest(files), Spine(files),
            if cover.id == "cover" then Some(EpubstripOebpsPrefix(cover.filename)) else None)
  }

  const OpfHeader := "<?xml version=\"1.0\" encoding=\"utf-8\"?>\n"
    + "<package version=\"2.0\" unique-identifier=\"BookId\" xmlns=\"http://www.idpf.org/2007/opf\">"
  const MetadataOpen := "<metadata xmlns:dc=\"http://purl.org/dc/elements/1.1/\"  xmlns:opf=\"http://www.idpf.org/2007/opf\">\n"
  const DateOpen := "<dc:date opf:event=\"modification\" xmlns:opf=\"http://www.idpf.org/2007/opf\">"
  const NcxItem := "\n"
    + "<item id='ncx' href='toc.ncx' media-type='application/x-dtbncx+xml'/>\n"
    + "</manifest>\n"
  const GuideOpen := "<guide><reference type=\"cover\" title=\"Cover\" href=\""
  const GuideClose := "\" /></guide>"

  function RenderItem(it: Item): string
  {
    "\n<item id='" + it.id + "' href='" + it.href + "' media-type='" + it.mediaType + "'"
    + (if it.coverImage then " properties='cover-image'" else "") + " />"
  }

  function RenderItems(items: seq<Item>): string
  {
    if |items| == 0 then "" else RenderItems(items[..|items| - 1]) + RenderItem(Last(items))
  }

  function RenderSpine(ids: seq<string>): string
  {
    if |ids| == 0 then "" else RenderSpine(ids[..|ids| - 1]) + "\n<itemref idref='" + Last(ids) + "'/>"
  }

  function RenderMetadata(p: Package): string
  {
    MetadataOpen
    + "<dc:creator>" + p.author + "</dc:creator>\n"
    + "<dc:identifier id=\"BookId\">" + p.identifier + "</dc:identifier>\n"
    + "<dc:language>en</dc:language>\n"
    + "<dc:title>" + p.title + "</dc:title>\n"
    + DateOpen + p.date + "</dc:date>\n"
    + (if p.coverMeta then "<meta name='cover' content='" + "cover-image" + "' />\n" else "")
    + "</metadata>\n\n"
  }

  function RenderGuide(g: Option<string>): string
  {
    if g.Some? then GuideOpen + g.value + GuideClose else ""
  }

  /** The text of `content.opf`. */
  function RenderOpf(p: Package): string
  {
    OpfHeader + RenderMetadata(p)
    + ("<manifest>" + RenderItems(p.manifest) + NcxItem)
    + "\n<spine toc='ncx'>" + RenderSpine(p.spine) + "\n</spine>\n"
    + RenderGuide(p.guide) + "</package>\n"
  }

  lemma RenderItemsSnoc(items: seq<Item>, it: Item)
    ensures RenderItems(items + [it]) == RenderItems(items) + RenderItem(it)
  {
    assert (items + [it])[..|items|] == items;
  }

  lemma RenderSpineSnoc(ids: seq<string>, id: string)
    ensures RenderSpine(ids + [id]) == RenderSpine(ids) + "\n<itemref idref='" + id + "'/>"
  {
    assert (ids + [id])[..|ids|] == ids;
  }

  /** The `<item>` elements of the manifest of `files`. */
  function ManifestText(files: seq<EpubFile>): string
  {
    RenderItems(Manifest(files))
  }

  /** One more file: one more item. */
  lemma ManifestStep(files: seq<EpubFile>, k: nat)
    requires k < |files|
    ensures ManifestText(files[..k + 1]) == ManifestText(files[..k]) + RenderItem(ItemOf(files[k]))
  {
    var front := files[..k + 1];
    assert front[..k] == files[..k] && Last(front) == files[k];
    assert Manifest(front) == Manifest(files[..k]) + [ItemOf(files[k])];
    RenderItemsSnoc(Manifest(files[..k]), ItemOf(files[k]));
  }

  /** One more file: perhaps a new last file with Id `id`. */
  lemma LastWithStep(files: seq<EpubFile>, k: nat, id: string)
    requires k < |files|
    ensures LastWith(files[..k + 1], id) == if files[k].id == id then files[k] else LastWith(files[..k], id)
  {
    var front := files[..k + 1];
    assert front[..k] == files[..k] && Last(front) == files[k];
  }

  /** The writes of one `<item>`. */
  method WriteItem(i: EpubFile) returns (item: string)
    ensures item == RenderItem(ItemOf(i))
  {
    item := "\n<item id='" + i.id + "' href='" + EpubstripOebpsPrefix(i.filename)
            + "' media-type='" + i.mimetype + "'";
    if i.id == "cover-image" {
      item := item + " properties='cover-image'";
    } else {
      item := item + "";
    }
    item := item + " />";
  }

  /** The manifest loop: the `<manifest>` text, and the last cover page and
      cover image seen. */
  method ManifestLoop(files: seq<EpubFile>) returns (manifest: string, cover: EpubFile, coverImg: EpubFile)
    ensures manifest == "<manifest>" + ManifestText(files) + NcxItem
    ensures cover == LastWith(files, "cover") && coverImg == LastWith(files, "cover-image")
  {
    var items := "";
    cover := NoFile;
    coverImg := NoFile;
    for k := 0 to |files|
      invariant items == ManifestText(files[..k])
      invariant cover == LastWith(files[..k], "cover") && coverImg == LastWith(files[..k], "cover-image")
    {
      var i := files[k];
      ManifestStep(files, k);
      LastWithStep(files, k, "cover");
      LastWithStep(files, k, "cover-image");
      if i.id == "cover" {
        cover := i;
      }
      if i.id == "cover-image" {
        coverImg := i;
      }
      var item := WriteItem(i);
      items := items + item;
    }
    assert files[..|files|] == files;
    manifest := "<manifest>" + items + NcxItem;
  }

  /** The spine loop: one `itemref` per XHTML file. */
  method SpineLoop(files: seq<EpubFile>) returns (spine: string)
    ensures spine == RenderSpine(Spine(files))
  {
    spine := "";
    for k := 0 to |files|
      invariant spine == RenderSpine(Spine(files[..k]))
    {
      var i := files[k];
      assert files[..k + 1][..k] == files[..k] && Last(files[..k + 1]) == i;
      if i.mimetype != Xhtml {
        assert Spine(files[..k + 1]) == Spine(files[..k]) + [];
        assert Spine(files[..k]) + [] == Spine(files[..k]);
        continue;
      }
      RenderSpineSnoc(Spine(files[..k]), i.id);
      spine := spine + "\n<itemref idref='" + i.id + "'/>";
    }
    assert files[..|files|] == files;
  }

  /** `EpubContentOpf(author, identifier, title, files)`, with the
      modification date given. */
  method EpubContentOpf(author: string, identifier: string, title: string, date: string, files: seq<EpubFile>)
    returns (r: string)
    ensures r == RenderOpf(OpfOf(author, identifier, title, date, files))
  {
    var manifest, cover, coverImg := ManifestLoop(files);
    var content := OpfHeader;
    var metadata := MetadataOpen
      + "<dc:creator>" + author + "</dc:creator>\n"
      + "<dc:identifier id=\"BookId\">" + identifier + "</dc:identifier>\n"
      + "<dc:language>en</dc:language>\n"
      + "<dc:title>" + title + "</dc:title>\n"
      + DateOpen + date + "</dc:date>\n";
    if coverImg.id == "cover-image" {
      metadata := metadata + ("<meta name='cover' content='" + coverImg.id + "' />\n");
    } else {
      metadata := metadata + "";
    }
    metadata := metadata + "</metadata>\n\n";
    content := content + metadata + manifest + "\n<spine toc='ncx'>";
    var spine := SpineLoop(files);
    content := content + spine + "\n</spine>\n";
    if cover.id == "cover" {
      content := content + (GuideOpen + EpubstripOebpsPrefix(cover.filename) + GuideClose);
    } else {
      content := content + "";
    }
    r := content + "</package>\n";
  }

  /** The manifest has one item per file, in order, under the stripped
      filename; only the cover image carries `properties='cover-image'`. */
  lemma OpfManifest(author: string, identifier: string, title: string, date: string, files: seq<EpubFile>)
    ensures var p := OpfOf(author, identifier, title, date, files);
            |p.manifest| == |files|
            && forall i :: 0 <= i < |files| ==>
                 p.manifest[i].id == files[i].id
                 && p.manifest[i].href == EpubstripOebpsPrefix(files[i].filename)
                 && p.manifest[i].mediaType == files[i].mimetype
                 && (p.manifest[i].coverImage <==> files[i].id == "cover-image")
  {
  }

  /** The cover meta is there exactly when some file is the cover image. */
  lemma OpfCoverMeta(author: string, identifier: string, title: string, date: string, files: seq<EpubFile>)
    ensures OpfOf(author, identifier, title, date, files).coverMeta
            <==> exists i :: 0 <= i < |files| && files[i].id == "cover-image"
  {
    LastWithMeaning(files, "cover-image");
  }

  /** The guide is there exactly when some file is the cover page, and it
      points at the last one. */
  lemma OpfGuide(author: string, identifier: string, title: string, date: string, files: seq<EpubFile>)
    ensures var g := OpfOf(author, identifier, title, date, files).guide;
            (g.Some? <==> exists i :: 0 <= i < |files| && files[i].id == "cover")
            && (g.Some? ==> exists j :: 0 <= j < |files| && files[j].id == "cover"
                                       && g.value == EpubstripOebpsPrefix(files[j].filename)
                                       && forall k :: j < k < |files| ==> files[k].id != "cover")
  {
    var c := LastWith(files, "cover");
    LastWithMeaning(files, "cover");
    if c.id == "cover" {
      var j :| 0 <= j < |files| && files[j] == c && forall k :: j < k < |files| ==> files[k].id != "cover";
      assert files[j].id == "cover";
    }
  }

  /** The spine lists exactly the XHTML files, cover page included, in
      input order. */
  lemma OpfSpine(author: string, identifier: string, title: string, date: string, files: seq<EpubFile>)
    ensures var s := OpfOf(author, identifier, title, date, files).spine;
            var sel := Selected(files, IsXhtml);
            |s| == |sel| && (forall k :: 0 <= k < |s| ==> s[k] == files[sel[k]].id && IsXhtml(files[sel[k]]))
            && (forall i :: 0 <= i < |files| && IsXhtml(files[i]) ==> i in sel)
  {
    SpineSelected(files);
  }

  // -----------------------------------------------------------------------
  // The table of contents.

  datatype NavPoint = NavPoint(id: string, playOrder: int, navLabel: string, src: string)

  /** The entry for `f`, numbered `n`. */
  function NavPointOf(f: EpubFile, n: int): NavPoint
  {
    NavPoint(f.id, n, f.title, EpubstripOebpsPrefix(f.filename))
  }

  /** The navMap: one entry per XHTML file that is not the cover page,
      numbered from 1 in input order. */
  function NavMap(files: seq<EpubFile>): (r: seq<NavPoint>)
  {
    if |files| == 0 then []
    else
      var q := NavMap(files[..|files| - 1]);
      q + (if IsChapterPage(Last(files)) then [NavPointOf(Last(files), |q| + 1)] else [])
  }

  /** The navMap lists exactly the selected files, the k-th numbered k. */
  lemma {:induction false} NavMapSelected(files: seq<EpubFile>)
    ensures |NavMap(files)| == |Selected(files, IsChapterPage)|
    ensures forall k :: 0 <= k < |NavMap(files)| ==>
              NavMap(files)[k] == NavPointOf(files[Selected(files, IsChapterPage)[k]], k + 1)
  {
    if |files| > 0 {
      var front := files[..|files| - 1];
      NavMapSelected(front);
      assert forall k :: 0 <= k < |Selected(front, IsChapterPage)| ==> Selected(front, IsChapterPage)[k] < |front|;
    }
  }

  const NcxHeadOpen := "<?xml version=\"1.0\" encoding=\"UTF-8\"?>\n"
    + "<!DOCTYPE ncx PUBLIC \"-//NISO//DTD ncx 2005-1//EN\" \"http://www.daisy.org/z3986/2005/ncx-2005-1.dtd\">\n"
    + "\n"
    + "<ncx version=\"2005-1\" xml:lang=\"en\" xmlns=\"http://www.daisy.org/z3986/2005/ncx/\">\n"
    + "  <head>\n"
    + "    <meta name=\"dtb:uid\" content=\""
  const NcxHeadClose := "\"/>\n"
    + "    <meta name=\"dtb:depth\" content=\"1\"/>\n"
    + "    <meta name=\"dtb:totalPageCount\" content=\"0\"/>\n"
    + "    <meta name=\"dtb:maxPageNumber\" content=\"0\"/>\n"
    + "  </head>\n"
    + "\n"
    + "  <docTitle><text>"
  const NcxAuthorOpen := "</text></docTitle>\n  <docAuthor><text>"
  const NcxNavOpen := "</text></docAuthor>\n  <navMap>"
  const NcxEnd := "\n</navMap>\n</ncx>\n"

  function RenderNavPoint(p: NavPoint): string
  {
    "\n<navPoint id='" + p.id + "' playOrder='" + Itoa(p.playOrder) + "'>\n"
    + "<navLabel><text>" + p.navLabel + "</text></navLabel>\n"
    + "<content src='" + p.src + "' />\n</navPoint>"
  }

  function RenderNav(nav: seq<NavPoint>): string
  {
    if |nav| == 0 then "" else RenderNav(nav[..|nav| - 1]) + RenderNavPoint(Last(nav))
  }

  function NcxHead(author: string, identifier: string, title: string): string
  {
    NcxHeadOpen + identifier + NcxHeadClose + title + NcxAuthorOpen + author + NcxNavOpen
  }

  /** The text of `toc.ncx`. */
  function RenderNcx(author: string, identifier: string, title: string, nav: seq<NavPoint>): string
  {
    NcxHead(author, identifier, title) + RenderNav(nav) + NcxEnd
  }

  /** The navPoints of the table of contents of `files`. */
  function NavText(files: seq<EpubFile>): string
  {
    RenderNav(NavMap(files))
  }

  /** One more file: one more navPoint, numbered one past the ones before,
      when the file is a chapter page. */
  lemma NavStep(files: seq<EpubFile>, k: nat)
    requires k < |files|
    ensures IsChapterPage(files[k]) ==>
              NavText(files[..k + 1]) == NavText(files[..k]) + RenderNavPoint(NavPointOf(files[k], |NavMap(files[..k])| + 1))
              && |NavMap(files[..k + 1])| == |NavMap(files[..k])| + 1
    ensures !IsChapterPage(files[k]) ==>
              NavText(files[..k + 1]) == NavText(files[..k]) && |NavMap(files[..k + 1])| == |NavMap(files[..k])|
  {
    var front := files[..k + 1];
    assert front[..k] == files[..k] && Last(front) == files[k];
    var q := NavMap(files[..k]);
    if IsChapterPage(files[k]) {
      var p := NavPointOf(files[k], |q| + 1);
      assert NavMap(front) == q + [p];
      assert (q + [p])[..|q|] == q;
    } else {
      assert NavMap(front) == q + [];
      assert q + [] == q;
    }
  }

  /** The writes of one `<navPoint>`. */
  method WriteNavPoint(i: EpubFile, n: int) returns (point: string)
    ensures point == RenderNavPoint(NavPointOf(i, n))
  {
    point := "\n<navPoint id='" + i.id + "' playOrder='" + Itoa(n) + "'>\n";
    point := point + "<navLabel><text>" + i.title + "</text></navLabel>\n";
    point := point + "<content src='" + EpubstripOebpsPrefix(i.filename) + "' />\n</navPoint>";
  }

  /** `EpubTocNcx(author, identifer, title, files)`. */
  method EpubTocNcx(author: string, identifer: string, title: string, files: seq<EpubFile>) returns (r: string)
    ensures r == RenderNcx(author, identifer, title, NavMap(files))
  {
    var points := "";
    var n := 1;
    for k := 0 to |files|
      invariant points == NavText(files[..k])
      invariant n == |NavMap(files[..k])| + 1
    {
      var i := files[k];
      NavStep(files, k);
      if i.mimetype != Xhtml {
        continue;
      }
      if i.id == "cover" {
        continue;
      }
      var point := WriteNavPoint(i, n);
      points := points + point;
      n := n + 1;
    }
    assert files[..|files|] == files;
    r := NcxHead(author, identifer, title) + points + NcxEnd;
  }

  /** The `playOrder` values are 1, 2, ..., k, and their texts are pairwise
      distinct. */
  lemma PlayOrders(files: seq<EpubFile>)
    ensures forall k :: 0 <= k < |NavMap(files)| ==> NavMap(files)[k].playOrder == k + 1
    ensures forall k, l :: 0 <= k < l < |NavMap(files)| ==>
              Itoa(NavMap(files)[k].playOrder) != Itoa(NavMap(files)[l].playOrder)
  {
    var nav := NavMap(files);
    forall k, l | 0 <= k < l < |nav|
      ensures Itoa(nav[k].playOrder) != Itoa(nav[l].playOrder)
    {
      if Itoa(nav[k].playOrder) == Itoa(nav[l].playOrder) {
        ItoaInjective(nav[k].playOrder, nav[l].playOrder);
      }
    }
  }

  /** The Ids in `ids` other than `cover`. */
  function WithoutCover(ids: seq<string>): seq<string>
  {
    if |ids| == 0 then []
    else WithoutCover(ids[..|ids| - 1]) + (if Last(ids) == "cover" then [] else [Last(ids)])
  }

  function NavIds(nav: seq<NavPoint>): seq<string>
  {
    if |nav| == 0 then [] else NavIds(nav[..|nav| - 1]) + [Last(nav).id]
  }

  /** The table of contents follows the spine, leaving out the cover page. */
  lemma {:induction false} TocIsSpineWithoutCover(files: seq<EpubFile>)
    ensures NavIds(NavMap(files)) == WithoutCover(Spine(files))
  {
    if |files| > 0 {
      var front := files[..|files| - 1];
      TocIsSpineWithoutCover(front);
      var f := Last(files);
      if IsXhtml(f) {
        assert Spine(files) == Spine(front) + [f.id];
        assert Spine(files)[..|Spine(files)| - 1] == Spine(front);
        if f.id != "cover" {
          var q := NavMap(front);
          assert NavMap(files) == q + [NavPointOf(f, |q| + 1)];
          assert NavMap(files)[..|NavMap(files)| - 1] == q;
          assert NavIds(NavMap(files)) == NavIds(q) + [f.id];
          assert WithoutCover(Spine(files)) == WithoutCover(Spine(front)) + [f.id];
        } else {
          assert NavMap(files) == NavMap(front) + [] == NavMap(front);
          assert WithoutCover(Spine(files)) == WithoutCover(Spine(front)) + [] == WithoutCover(Spine(front));
        }
      } else {
        assert NavMap(files) == NavMap(front) + [] == NavMap(front);
        assert Spine(files) == Spine(front) + [] == Spine(front);
      }
    }
  }

  // -----------------------------------------------------------------------
  // Fixed texts.

  const ContainerHead := "<?xml version=\"1.0\" encoding=\"UTF-8\"?>\n"
    + "<container version=\"1.0\" xmlns=\"urn:oasis:names:tc:opendocument:xmlns:container\">\n"
    + "    <rootfiles>\n"
    + "        <rootfile "

  /** `EpubContainerXml`: points to the package document. */
  function EpubContainerXml(): (r: string)
    ensures OccursAt(r, "full-path=\"" + OpfPath + "\"", |ContainerHead|)
  {
    var path := "full-path=\"" + OpfPath + "\"";
    var tail := " media-type=\"application/oebps-package+xml\"/>\n   </rootfiles>\n</container>\n";
    OccursInMiddle(ContainerHead, path, tail);
    ContainerHead + path + tail
  }

  /** `EpubMimetype`: the EPUB media type and a newline. */
  function EpubMimetype(): (r: string)
    ensures r == "application/epub+zip" + "\n"
  {
    "application/epub+zip\n"
  }

  const PreambleOpen := "<?xml version=\"1.0\" encoding=\"UTF-8\" ?>\n"
    + "<!DOCTYPE html PUBLIC \"-//W3C//DTD XHTML 1.1//EN\" \"http://www.w3.org/TR/xhtml11/DTD/xhtml11.dtd\">\n"
    + "<html xmlns=\"http://www.w3.org/1999/xhtml\" xml:lang=\"en\">\n"
    + "  <head>\n"
    + "    <meta http-equiv=\"Content-Type\" content=\"application/xhtml+xml; charset=utf-8\" />\n"
    + "    "

  const PreambleClose := "\n  </head>\n  "

  /** `EpubContentPreamble(title)`: the XHTML head with `title` as the
      document title, ending with the opening `<body>`. */
  function EpubContentPreamble(title: string): (r: string)
    ensures OccursAt(r, "<title>" + title + "</title>", |PreambleOpen|)
    ensures EndsWith(r, "<body>")
  {
    var t := "<title>" + title + "</title>";
    Framed(PreambleOpen, t, PreambleClose, "<body>");
    PreambleOpen + t + PreambleClose + "<body>"
  }

  /** `EpubContentEnd`: closes the body and the document. */
  function EpubContentEnd(): (r: string)
    ensures r == "</body>" + "\n</html>\n"
  {
    "</body>\n</html>\n"
  }

  // -----------------------------------------------------------------------
  // Assembly.

  /** `EpubAddExtra`: `mimetype` first, then the files, then the package
      document, the table of contents and the container, the first two
      built from the files as given. */
  method EpubAddExtra(author: string, identifier: string, title: string, date: string, files: seq<EpubFile>)
    returns (r: seq<EpubFile>)
    ensures r == [EpubFile("", EpubMimetype(), "mimetype", "", "")] + files
                 + [EpubFile("", RenderOpf(OpfOf(author, identifier, title, date, files)), OpfPath, "", ""),
                    EpubFile("", RenderNcx(author, identifier, title, NavMap(files)), "OEBPS/toc.ncx", "", ""),
                    EpubFile("", EpubContainerXml(), "META-INF/container.xml", "", "")]
  {
    var contentOpf := EpubContentOpf(author, identifier, title, date, files);
    var tocNcx := EpubTocNcx(author, identifier, title, files);
    var opf := EpubFile("", contentOpf, OpfPath, "", "");
    var ncx := EpubFile("", tocNcx, "OEBPS/toc.ncx", "", "");
    var container := EpubFile("", EpubContainerXml(), "META-INF/container.xml", "", "");
    var mimetype := EpubFile("", EpubMimetype(), "mimetype", "", "");
    r := [mimetype] + files + [opf, ncx, container];
  }

  /** Where the entries of the `EpubAddExtra` list sit: the first one
      before the files, which keep their order, and the last three after. */
  lemma Placement(first: EpubFile, files: seq<EpubFile>, a: EpubFile, b: EpubFile, c: EpubFile)
    ensures var r := [first] + files + [a, b, c];
            |r| == |files| + 4 && r[0] == first && r[1..|files| + 1] == files
            && r[|files| + 1] == a && r[|files| + 2] == b && r[|files| + 3] == c
  {
    var r := [first] + files + [a, b, c];
    assert r[1..|files| + 1] == files;
  }

  /** `EpubFileName(url)`: the last path element of the URL, trailing
      slash ignored, with `.epub` added. */
  function EpubFileName(url: string): (r: string)
    ensures EndsWith(r, ".epub") && |r| > |".epub"|
  {
    var r := PathBase(TrimSuffix(url, "/")) + ".epub";
    assert r[|r| - 5..] == ".epub";
    r
  }

  /** The series URL `.../name` or `.../name/` gives `name.epub`. */
  lemma FileNameOfSeries(prefix: string, name: string)
    requires name != "" && '/' !in name
    ensures EpubFileName(prefix + "/" + name) == name + ".epub"
    ensures EpubFileName(prefix + "/" + name + "/") == name + ".epub"
  {
    var u := prefix + "/" + name;
    assert !EndsWith(u, "/") by {
      assert u[|u| - 1] == name[|name| - 1];
    }
    assert EndsWith(u + "/", "/");
    assert (u + "/")[..|u + "/"| - 1] == u;
    assert StripTrailing(u, '/') == u;
    AfterLastSlash(prefix, name);
  }

  lemma {:induction false} AfterLastSlash(prefix: string, name: string)
    requires '/' !in name
    ensures AfterLast(prefix + "/" + name, '/') == name
  {
    var u := prefix + "/" + name;
    if |name| > 0 {
      var front := name[..|name| - 1];
      assert u[..|u| - 1] == prefix + "/" + front;
      AfterLastSlash(prefix, front);
      assert front + [name[|name| - 1]] == name;
    }
  }
}
