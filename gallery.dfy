/**
 * The snapshot folder as a listing of entries, the writing of a snapshot into
 * it, and the QuickView.html page generated from the PNG files it holds.
 */
module Gallery {
  import opened Results
  import opened Strings

  const GalleryName := "QuickView.html"
  const Title := "Tray Camera Quick View"
  const ImageExtension := ".png"

  /** One entry of the folder listing. */
  datatype Entry = Entry(name: string, isDirectory: bool)

  predicate NoEntryNamed(listing: seq<Entry>, name: string) {
    forall e :: e in listing ==> e.name != name
  }

  /** A file system never lists two entries under one name. */
  predicate UniqueNames(listing: seq<Entry>) {
    listing == [] || (NoEntryNamed(listing[1..], listing[0].name) && UniqueNames(listing[1..]))
  }

  lemma {:induction false} UniqueNamesAppend(listing: seq<Entry>, e: Entry)
    requires UniqueNames(listing) && NoEntryNamed(listing, e.name)
    ensures UniqueNames(listing + [e])
  {
    if listing == [] {
      assert [e][1..] == [];
    } else {
      assert (listing + [e])[1..] == listing[1..] + [e];
      assert listing[0] in listing;
      assert forall x :: x in listing[1..] ==> x in listing;
      UniqueNamesAppend(listing[1..], e);
    }
  }

  /**
   * Writing the file `name` afresh, as `ImageIO.write` and `File.printWriter`
   * do: an old file of that name is deleted and the new one is listed last. A
   * directory holding the name makes the write fail.
   */
  function Store(listing: seq<Entry>, name: string): (r: Result<seq<Entry>>)
    ensures r.Success? <==> Entry(name, true) !in listing
    ensures r.Success? ==> forall e :: e in r.value <==> e in listing || e == Entry(name, false)
    ensures r.Success? ==> |r.value| > 0 && r.value[|r.value| - 1] == Entry(name, false)
  {
    if Entry(name, true) in listing then Failure(NotAFile(name))
    else Success(Delete(listing, name) + [Entry(name, false)])
  }

  lemma StoreKeepsNamesUnique(listing: seq<Entry>, name: string)
    requires UniqueNames(listing) && Store(listing, name).Success?
    ensures UniqueNames(Store(listing, name).value)
  {
    var rest := Delete(listing, name);
    DeleteKeepsNamesUnique(listing, name);
    forall e | e in rest ensures e.name != name {
      assert e == Entry(e.name, e.isDirectory);
    }
    UniqueNamesAppend(rest, Entry(name, false));
  }

  /** `File.delete()` on the file `name`: its entry leaves the listing, the rest keep their order. */
  function Delete(listing: seq<Entry>, name: string): (r: seq<Entry>)
    ensures forall e :: e in r <==> e in listing && e != Entry(name, false)
  {
    if listing == [] then []
    else
      assert forall e :: e in listing <==> e == listing[0] || e in listing[1..];
      (if listing[0] == Entry(name, false) then [] else [listing[0]]) + Delete(listing[1..], name)
  }

  lemma {:induction false} DeleteKeepsNamesUnique(listing: seq<Entry>, name: string)
    requires UniqueNames(listing)
    ensures UniqueNames(Delete(listing, name))
  {
    if listing != [] {
      DeleteKeepsNamesUnique(listing[1..], name);
      if listing[0] != Entry(name, false) {
        var d := Delete(listing[1..], name);
        assert Delete(listing, name) == [listing[0]] + d;
        assert ([listing[0]] + d)[1..] == d;
        assert NoEntryNamed(d, listing[0].name);
      } else {
        assert Delete(listing, name) == Delete(listing[1..], name);
      }
    }
  }

  /** Deleting a file that is not there changes nothing. */
  lemma {:induction false} DeleteAbsent(listing: seq<Entry>, name: string)
    requires Entry(name, false) !in listing
    ensures Delete(listing, name) == listing
  {
    if listing != [] {
      assert listing[0] in listing;
      assert forall x :: x in listing[1..] ==> x in listing;
      DeleteAbsent(listing[1..], name);
      assert listing == [listing[0]] + listing[1..];
    }
  }

  lemma {:induction false} DeleteConcat(a: seq<Entry>, b: seq<Entry>, name: string)
    ensures Delete(a + b, name) == Delete(a, name) + Delete(b, name)
  {
    if a == [] {
      assert a + b == b;
    } else {
      assert (a + b)[1..] == a[1..] + b;
      DeleteConcat(a[1..], b, name);
    }
  }

  /** What the gallery shows: a file, not a directory, whose name ends in ".png". */
  predicate IsImageFile(e: Entry) {
    EndsWith(e.name, ImageExtension) && !e.isDirectory
  }

  /** The image files of the listing, in listing order. */
  function ImageFiles(listing: seq<Entry>): (r: seq<Entry>)
    ensures |r| <= |listing|
    ensures forall e :: e in r <==> e in listing && IsImageFile(e)
  {
    if listing == [] then []
    else
      assert forall e :: e in listing <==> e == listing[0] || e in listing[1..];
      (if IsImageFile(listing[0]) then [listing[0]] else []) + ImageFiles(listing[1..])
  }

  /** The filter keeps the listing order: it works on each part of a concatenation separately. */
  lemma {:induction false} ImageFilesConcat(a: seq<Entry>, b: seq<Entry>)
    ensures ImageFiles(a + b) == ImageFiles(a) + ImageFiles(b)
  {
    if a == [] {
      assert a + b == b;
    } else {
      assert (a + b)[1..] == a[1..] + b;
      ImageFilesConcat(a[1..], b);
    }
  }

  /** Removing an entry that is not an image leaves the image files as they were. */
  lemma {:induction false} ImageFilesDelete(listing: seq<Entry>, name: string)
    requires !IsImageFile(Entry(name, false))
    ensures ImageFiles(Delete(listing, name)) == ImageFiles(listing)
  {
    if listing != [] {
      ImageFilesDelete(listing[1..], name);
      if listing[0] == Entry(name, false) {
        assert Delete(listing, name) == Delete(listing[1..], name);
      } else {
        assert Delete(listing, name) == [listing[0]] + Delete(listing[1..], name);
        ImageFilesConcat([listing[0]], Delete(listing[1..], name));
      }
    }
  }

  /** The gallery page is never an image of its own. */
  lemma GalleryIsNotAnImage()
    ensures !EndsWith(GalleryName, ImageExtension)
  {
    assert GalleryName[|GalleryName| - 4..] == "html";
  }

  /** One image on the page: an h2 heading and an img whose alt text and source are all the file name. */
  datatype Figure = Figure(heading: string, alt: string, src: string)

  /** The page: its title, its h1 banner and one figure per image. */
  datatype Document = Document(title: string, banner: string, figures: seq<Figure>)

  function FigureFor(file: Entry): Figure {
    Figure(file.name, file.name, file.name)
  }

  /** The page generated from a listing. */
  function QuickView(listing: seq<Entry>): (doc: Document)
    ensures doc.title == Title && doc.banner == Title
    ensures |doc.figures| == |ImageFiles(listing)|
    ensures forall f :: f in doc.figures ==>
      f.heading == f.alt == f.src && Entry(f.src, false) in listing && EndsWith(f.src, ImageExtension)
  {
    var images := ImageFiles(listing);
    var figures := seq(|images|, i requires 0 <= i < |images| => FigureFor(images[i]));
    assert forall i :: 0 <= i < |images| ==> images[i] in images && figures[i] == FigureFor(images[i]);
    Document(Title, Title, figures)
  }

  /**
   * The page shows exactly the image files of the listing, one figure each in
   * listing order, each figure naming its file in heading, alt text and source;
   * the page itself is never among them.
   */
  lemma QuickViewShowsImages(listing: seq<Entry>)
    ensures var doc := QuickView(listing);
      && doc.title == Title && doc.banner == Title
      && |doc.figures| == |ImageFiles(listing)|
      && (forall i :: 0 <= i < |doc.figures| ==>
            doc.figures[i].heading == doc.figures[i].alt == doc.figures[i].src == ImageFiles(listing)[i].name)
      && (forall f :: f in doc.figures ==> Entry(f.src, false) in listing && EndsWith(f.src, ImageExtension))
      && (forall e :: e in listing && IsImageFile(e) ==> FigureFor(e) in doc.figures)
      && (forall f :: f in doc.figures ==> f.src != GalleryName)
  {
    var doc, images := QuickView(listing), ImageFiles(listing);
    forall f | f in doc.figures
      ensures Entry(f.src, false) in listing && EndsWith(f.src, ImageExtension) && f.src != GalleryName
    {
      var i :| 0 <= i < |doc.figures| && doc.figures[i] == f;
      assert images[i] in images;
      assert images[i] == Entry(f.src, false);
      GalleryIsNotAnImage();
    }
    forall e | e in listing && IsImageFile(e) ensures FigureFor(e) in doc.figures {
      var i :| 0 <= i < |images| && images[i] == e;
      assert doc.figures[i] == FigureFor(e);
    }
  }

  /**
   * generateQuickViewHtml on a listing: the page is built from the listing as
   * read before the old page is deleted; the old QuickView.html file goes and a
   * new one is listed last. A directory holding the page's name makes the write
   * fail.
   */
  function Regenerate(listing: seq<Entry>): (r: Result<(seq<Entry>, Document)>)
    ensures r.Success? <==> Entry(GalleryName, true) !in listing
  {
    var doc := QuickView(listing);
    match Store(listing, GalleryName)
    case Failure(e) => Failure(e)
    case Success(after) => Success((after, doc))
  }

  /**
   * Regeneration replaces only the page: every other entry stays listed, the
   * page is listed, nothing else is added, and every figure's source is a file
   * of the new listing.
   */
  lemma RegenerateKeepsSnapshots(listing: seq<Entry>)
    requires Regenerate(listing).Success?
    ensures var (after, doc) := Regenerate(listing).value;
      && (forall e :: e in listing && e.name != GalleryName ==> e in after)
      && (forall e :: e in after ==> e in listing || e == Entry(GalleryName, false))
      && Entry(GalleryName, false) in after
      && (forall f :: f in doc.figures ==> Entry(f.src, false) in after)
  {
    var (after, doc) := Regenerate(listing).value;
    assert after == Delete(listing, GalleryName) + [Entry(GalleryName, false)];
    QuickViewShowsImages(listing);
  }

  lemma RegenerateKeepsNamesUnique(listing: seq<Entry>)
    requires UniqueNames(listing) && Regenerate(listing).Success?
    ensures UniqueNames(Regenerate(listing).value.0)
  {
    StoreKeepsNamesUnique(listing, GalleryName);
  }

  /**
   * Regenerating again with no new snapshot gives the same listing and the same
   * page.
   */
  lemma RegenerateIdempotent(listing: seq<Entry>)
    requires Regenerate(listing).Success?
    ensures Regenerate(Regenerate(listing).value.0) == Regenerate(listing)
  {
    var rest := Delete(listing, GalleryName);
    var page := [Entry(GalleryName, false)];
    var after := rest + page;
    GalleryIsNotAnImage();
    assert Entry(GalleryName, true) !in after;
    DeleteConcat(rest, page, GalleryName);
    DeleteAbsent(rest, GalleryName);
    assert Delete(page, GalleryName) == [];
    assert Delete(after, GalleryName) == rest;
    ImageFilesConcat(rest, page);
    ImageFilesDelete(listing, GalleryName);
    assert ImageFiles(page) == [];
    assert ImageFiles(after) == ImageFiles(listing);
  }

  /** A snapshot written under a ".png" name is among the files the next page shows. */
  lemma StoredSnapshotIsShown(listing: seq<Entry>, name: string)
    requires EndsWith(name, ImageExtension) && Store(listing, name).Success?
    ensures FigureFor(Entry(name, false)) in QuickView(Store(listing, name).value).figures
  {
    QuickViewShowsImages(Store(listing, name).value);
  }
}
