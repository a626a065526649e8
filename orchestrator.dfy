/**
 * The capture click: the checked screens are captured one after another, the
 * gallery page is regenerated once, and the tray icon shows the camera "on"
 * for the duration. An exception in a capture or in the page write abandons the
 * rest of the click, leaving the icon on.
 */
module Orchestrator {
  import opened Results
  import opened Strings
  import opened Naming
  import opened Screens
  import opened Gallery

  /** The two images the tray icon shows. */
  datatype Icon = CameraOff | CameraOn

  /** What happens during a click, in the order it happens. */
  datatype Event = IconShown(icon: Icon) | Saved(file: string) | Regenerated(page: Document)

  /** No directory in the listing carries a ".png" name, so no snapshot write can hit one. */
  predicate NoImageDirectories(listing: seq<Entry>) {
    forall e :: e in listing && e.isDirectory ==> !EndsWith(e.name, ImageExtension)
  }

  /**
   * The file each capture of a click tries to write, from its capture name and
   * its own clock reading, or the exception naming it raises.
   */
  function FileNames(names: seq<string>, clock: seq<string>): (files: seq<Result<string>>)
    requires |names| == |clock|
    ensures |files| == |names|
  {
    seq(|names|, i requires 0 <= i < |names| => SnapshotName(clock[i], names[i]))
  }

  /**
   * captureScreen against a listing, once its file name is worked out: the
   * listing after the PNG is written. It fails when naming raised, or when a
   * directory holds the name.
   */
  function Capture(listing: seq<Entry>, file: Result<string>): (r: Result<seq<Entry>>)
    ensures r.Success? <==> file.Success? && Entry(file.value, true) !in listing
    ensures r.Success? ==> forall e :: e in r.value <==> e in listing || e == Entry(file.value, false)
  {
    match file
    case Failure(e) => Failure(e)
    case Success(name) => Store(listing, name)
  }

  /** The result of running the capture actions of one click in order. */
  datatype Captures = Captures(listing: seq<Entry>, saved: seq<string>, complete: bool)

  /** `actions.forEach { it() }`: the captures in order; the first failing one stops the rest. */
  function CaptureAll(listing: seq<Entry>, files: seq<Result<string>>): (c: Captures)
    ensures |c.saved| <= |files|
    ensures c.complete <==> |c.saved| == |files|
    decreases |files|
  {
    if files == [] then Captures(listing, [], true)
    else match Capture(listing, files[0])
      case Failure(_) => Captures(listing, [], false)
      case Success(after) =>
        var rest := CaptureAll(after, files[1..]);
        Captures(rest.listing, [files[0].value] + rest.saved, rest.complete)
  }

  function SavedEvents(files: seq<string>): seq<Event> {
    seq(|files|, i requires 0 <= i < |files| => Saved(files[i]))
  }

  /**
   * The files a click's captures saved are the leading names in order, and a
   * stop means the next capture failed.
   */
  lemma {:induction false} CaptureAllSaved(listing: seq<Entry>, files: seq<Result<string>>)
    ensures var c := CaptureAll(listing, files);
      && (forall i :: 0 <= i < |c.saved| ==> files[i] == Success(c.saved[i]))
      && (!c.complete ==> Capture(c.listing, files[|c.saved|]).Failure?)
    decreases |files|
  {
    if files != [] && Capture(listing, files[0]).Success? {
      var after := Capture(listing, files[0]).value;
      CaptureAllSaved(after, files[1..]);
      var rest := CaptureAll(after, files[1..]);
      var c := CaptureAll(listing, files);
      assert c == Captures(rest.listing, [files[0].value] + rest.saved, rest.complete);
      forall i | 0 <= i < |c.saved| ensures files[i] == Success(c.saved[i]) {
        if i > 0 {
          assert c.saved[i] == rest.saved[i - 1] && files[i] == files[1..][i - 1];
        }
      }
      if !c.complete {
        assert files[|c.saved|] == files[1..][|rest.saved|];
      }
    }
  }

  /**
   * The listing after a click's captures: every saved file is listed, nothing
   * listed before goes away, and nothing but the saved files is added.
   */
  lemma {:induction false} CaptureAllListing(listing: seq<Entry>, files: seq<Result<string>>)
    ensures var c := CaptureAll(listing, files);
      && (forall f :: f in c.saved ==> Entry(f, false) in c.listing)
      && (forall e :: e in listing ==> e in c.listing)
      && (forall e :: e in c.listing ==> e in listing || (!e.isDirectory && e.name in c.saved))
    decreases |files|
  {
    if files != [] && Capture(listing, files[0]).Success? {
      var after := Capture(listing, files[0]).value;
      CaptureAllListing(after, files[1..]);
      var rest := CaptureAll(after, files[1..]);
      assert CaptureAll(listing, files) == Captures(rest.listing, [files[0].value] + rest.saved, rest.complete);
    }
  }

  /**
   * When no directory is in the way, captures run up to the first file whose
   * name could not be worked out: exactly that many files are saved, and the
   * captures complete exactly when every name was worked out.
   */
  lemma {:induction false} CaptureAllStopsAtFirstFailure(listing: seq<Entry>, files: seq<Result<string>>, k: nat)
    requires NoImageDirectories(listing)
    requires k <= |files|
    requires forall i :: 0 <= i < k ==> files[i].Success? && EndsWith(files[i].value, ImageExtension)
    requires k < |files| ==> files[k].Failure?
    ensures |CaptureAll(listing, files).saved| == k
    ensures CaptureAll(listing, files).complete <==> k == |files|
    decreases |files|
  {
    if files != [] && k > 0 {
      var after := Capture(listing, files[0]).value;
      assert NoImageDirectories(after);
      assert forall i :: 0 <= i < k - 1 ==> files[1..][i] == files[i + 1];
      CaptureAllStopsAtFirstFailure(after, files[1..], k - 1);
    }
  }

  /**
   * The same for a click: its captures run up to the first clock reading too
   * short to name a file.
   */
  lemma CaptureAllStopsAtFirstShortStamp(listing: seq<Entry>, names: seq<string>, clock: seq<string>, k: nat)
    requires |names| == |clock| && NoImageDirectories(listing)
    requires k <= |names|
    requires forall i :: 0 <= i < k ==> TimeStr(clock[i]).Success?
    requires k < |names| ==> TimeStr(clock[k]).Failure?
    ensures |CaptureAll(listing, FileNames(names, clock)).saved| == k
    ensures CaptureAll(listing, FileNames(names, clock)).complete <==> k == |names|
  {
    var files := FileNames(names, clock);
    forall i | 0 <= i < k ensures files[i].Success? && EndsWith(files[i].value, ImageExtension) {
      assert files[i] == SnapshotName(clock[i], names[i]);
    }
    if k < |names| {
      assert files[k] == SnapshotName(clock[k], names[k]);
    }
    CaptureAllStopsAtFirstFailure(listing, files, k);
  }

  /** Distinct capture names give distinct files, whatever the clock readings. */
  lemma CaptureAllSavesDistinctFiles(listing: seq<Entry>, names: seq<string>, clock: seq<string>)
    requires |names| == |clock| && AllDifferent(names)
    ensures AllDifferent(CaptureAll(listing, FileNames(names, clock)).saved)
  {
    var files := FileNames(names, clock);
    var c := CaptureAll(listing, files);
    CaptureAllSaved(listing, files);
    forall i, j | 0 <= i < j < |c.saved| ensures c.saved[i] != c.saved[j] {
      assert files[i] == SnapshotName(clock[i], names[i]) == Success(c.saved[i]);
      assert files[j] == SnapshotName(clock[j], names[j]) == Success(c.saved[j]);
      SnapshotNamesDiffer(clock[i], names[i], clock[j], names[j]);
    }
  }

  /**
   * The screens captured in one click never share a file: their labels differ,
   * so their capture names differ, so their file names do.
   */
  lemma ClickSavesDistinctFiles(screens: seq<Screen>, listing: seq<Entry>, clock: seq<string>)
    requires DistinctLabels(screens) && |clock| == |Enabled(screens)|
    ensures AllDifferent(CaptureAll(listing, FileNames(CaptureNames(Enabled(screens)), clock)).saved)
  {
    EnabledKeepsLabelsDistinct(screens);
    CaptureNamesDistinct(Enabled(screens));
    CaptureAllSavesDistinctFiles(listing, CaptureNames(Enabled(screens)), clock);
  }

  /** A click with no checked screen has no capture to run. */
  lemma NothingCheckedNothingCaptured(screens: seq<Screen>, clock: seq<string>)
    requires |clock| == |Enabled(screens)|
    ensures FileNames(CaptureNames(Enabled(screens)), clock) == [] <==> forall i :: 0 <= i < |screens| ==> !screens[i].enabled
  {
    EnabledEmpty(screens);
  }

  /**
   * Captures whose clock readings all carry seconds, in a folder where no
   * directory is in the way: exactly one file per capture name is saved, in
   * order, the page can then be written, and it shows every one of them.
   */
  lemma CapturesThenPage(listing: seq<Entry>, names: seq<string>, clock: seq<string>)
    requires |names| == |clock|
    requires NoImageDirectories(listing) && Entry(GalleryName, true) !in listing
    requires forall i :: 0 <= i < |clock| ==> TimeStr(clock[i]).Success?
    ensures var c := CaptureAll(listing, FileNames(names, clock));
      && c.complete && |c.saved| == |names|
      && (forall i :: 0 <= i < |names| ==> SnapshotName(clock[i], names[i]) == Success(c.saved[i]))
      && Regenerate(c.listing).Success?
      && (forall f :: f in c.saved ==> FigureFor(Entry(f, false)) in Regenerate(c.listing).value.1.figures)
  {
    var files := FileNames(names, clock);
    CaptureAllStopsAtFirstShortStamp(listing, names, clock, |names|);
    CaptureAllSaved(listing, files);
    CaptureAllListing(listing, files);
    var c := CaptureAll(listing, files);
    assert Entry(GalleryName, true) !in c.listing by {
      GalleryIsNotAnImage();
    }
    QuickViewShowsImages(c.listing);
    forall f | f in c.saved ensures FigureFor(Entry(f, false)) in QuickView(c.listing).figures {
      var i :| 0 <= i < |c.saved| && c.saved[i] == f;
      assert files[i] == SnapshotName(clock[i], names[i]);
      assert EndsWith(f, ImageExtension);
    }
  }

  /**
   * Neither the captures nor the page write remove a listed entry other than
   * the page itself.
   */
  lemma CapturesKeepSnapshots(listing: seq<Entry>, files: seq<Result<string>>)
    ensures var c := CaptureAll(listing, files);
      && (forall e :: e in listing ==> e in c.listing)
      && (Regenerate(c.listing).Success? ==>
            forall e :: e in listing && e.name != GalleryName ==> e in Regenerate(c.listing).value.0)
  {
    var c := CaptureAll(listing, files);
    CaptureAllListing(listing, files);
    if Regenerate(c.listing).Success? {
      RegenerateKeepsSnapshots(c.listing);
    }
  }

  /**
   * The loop view of CaptureAll: with `saved` written before position i, a
   * failing capture at i ends the run, a succeeding one moves the split to i + 1.
   */
  lemma CaptureAllProgress(total: Captures, listing: seq<Entry>, files: seq<Result<string>>, i: nat, saved: seq<string>)
    requires i < |files|
    requires var rest := CaptureAll(listing, files[i..]);
      total == Captures(rest.listing, saved + rest.saved, rest.complete)
    ensures var r := Capture(listing, files[i]);
      && (r.Failure? ==> total == Captures(listing, saved, false))
      && (r.Success? ==>
            var rest := CaptureAll(r.value, files[i + 1..]);
            total == Captures(rest.listing, (saved + [files[i].value]) + rest.saved, rest.complete))
  {
    assert files[i..][0] == files[i] && files[i..][1..] == files[i + 1..];
    var r := Capture(listing, files[i]);
    if r.Success? {
      var rest := CaptureAll(r.value, files[i + 1..]);
      assert saved + ([files[i].value] + rest.saved) == (saved + [files[i].value]) + rest.saved;
    } else {
      assert saved + [] == saved;
    }
  }

  lemma SavedEventsAppend(before: seq<Event>, files: seq<string>, file: string)
    ensures before + SavedEvents(files + [file]) == before + SavedEvents(files) + [Saved(file)]
  {
    assert SavedEvents(files + [file]) == SavedEvents(files) + [Saved(file)];
  }

  /**
   * The tray application: the screens with their menu items, the tray icon,
   * the snapshot folder's listing and the page this process last wrote to
   * QuickView.html. `events` records what happened, for the specifications.
   */
  class TrayCamera {
    var screens: seq<Screen>
    var icon: Icon
    var listing: seq<Entry>
    var page: Option<Document>
    ghost var events: seq<Event>

    ghost predicate Valid()
      reads this
    {
      && DistinctLabels(screens)
      && UniqueNames(listing)
      && (page.Some? ==> Entry(GalleryName, false) in listing)
    }

    /** Start-up: every display paired with a checked item "Screen k", the icon off. */
    constructor (devices: seq<Device>, folder: seq<Entry>)
      requires UniqueNames(folder)
      ensures Valid()
      ensures screens == Enumerate(devices) && icon == CameraOff
      ensures listing == folder && page == None && events == []
    {
      screens := Enumerate(devices);
      icon := CameraOff;
      listing := folder;
      page := None;
      events := [];
      EnumerateLabels(devices);
    }

    /** The user checks or unchecks the menu item of screen `index`. */
    method SetEnabled(index: nat, on: bool)
      requires Valid() && index < |screens|
      modifies this`screens
      ensures Valid()
      ensures screens == old(screens)[index := old(screens)[index].(enabled := on)]
    {
      screens := screens[index := screens[index].(enabled := on)];
      assert forall i :: 0 <= i < |screens| ==> screens[i].itemLabel == old(screens)[i].itemLabel;
    }

    /** captureScreen: names the file from the clock reading and writes it into the folder. */
    method CaptureScreen(name: string, stamp: string) returns (ok: bool)
      requires Valid()
      modifies this`listing, this`events
      ensures Valid()
      ensures var file := SnapshotName(stamp, name);
        var r := Capture(old(listing), file);
        && ok == r.Success?
        && (ok ==> listing == r.value && events == old(events) + [Saved(file.value)])
        && (!ok ==> listing == old(listing) && events == old(events))
    {
      var time := TimeStr(stamp);
      if time.Failure? {
        return false;
      }
      var file := FileName(time.value, name);
      if Entry(file, true) in listing {
        return false;
      }
      StoreKeepsNamesUnique(listing, file);
      listing := Delete(listing, file) + [Entry(file, false)];
      events := events + [Saved(file)];
      ok := true;
    }

    /**
     * generateQuickViewHtml: the image files listed first, the old page deleted
     * and a new one created, then one figure per image file written to it.
     */
    method GenerateQuickViewHtml() returns (ok: bool)
      requires Valid()
      modifies this`listing, this`page, this`events
      ensures Valid()
      ensures var r := Regenerate(old(listing));
        && ok == r.Success?
        && (ok ==> listing == r.value.0 && page == Some(r.value.1) && events == old(events) + [Regenerated(r.value.1)])
        && (!ok ==> listing == old(listing) && page == old(page) && events == old(events))
    {
      var images := ImageFiles(listing);
      if Entry(GalleryName, true) in listing {
        return false;
      }
      ghost var r := Regenerate(listing);
      RegenerateKeepsNamesUnique(listing);
      listing := Store(listing, GalleryName).value;
      var figures: seq<Figure> := [];
      var i := 0;
      while i < |images|
        invariant 0 <= i <= |images|
        invariant |figures| == i
        invariant forall k :: 0 <= k < i ==> figures[k] == FigureFor(images[k])
      {
        var name := images[i].name;
        figures := figures + [Figure(name, name, name)];
        i := i + 1;
      }
      var doc := Document(Title, Title, figures);
      assert doc == QuickView(old(listing));
      assert r == Success((listing, doc));
      page := Some(doc);
      events := events + [Regenerated(doc)];
      ok := true;
    }

    /**
     * `actions.forEach { it() }`: the captures of one click, in order, until one
     * of them raises.
     */
    method CaptureEach(actions: seq<string>, clock: seq<string>) returns (complete: bool)
      requires Valid() && |actions| == |clock|
      modifies this`listing, this`events
      ensures Valid()
      ensures var c := CaptureAll(old(listing), FileNames(actions, clock));
        listing == c.listing && complete == c.complete && events == old(events) + SavedEvents(c.saved)
    {
      ghost var files := FileNames(actions, clock);
      ghost var total := CaptureAll(listing, files);
      ghost var saved: seq<string> := [];
      var i := 0;
      assert files[0..] == files;
      while i < |actions|
        invariant 0 <= i <= |actions|
        invariant Valid()
        invariant events == old(events) + SavedEvents(saved)
        invariant var rest := CaptureAll(listing, files[i..]);
          total == Captures(rest.listing, saved + rest.saved, rest.complete)
      {
        CaptureAllProgress(total, listing, files, i, saved);
        assert files[i] == SnapshotName(clock[i], actions[i]);
        var ok := CaptureScreen(actions[i], clock[i]);
        if !ok {
          return false;
        }
        SavedEventsAppend(old(events), saved, files[i].value);
        saved := saved + [files[i].value];
        i := i + 1;
      }
      assert files[i..] == [];
      complete := true;
    }

    /**
     * The task cameraClick hands to the event queue: the captures in order, the
     * page, the icon off; an exception ends the task where it happens.
     */
    method CaptureTask(actions: seq<string>, clock: seq<string>)
      requires Valid() && |actions| == |clock|
      modifies this`listing, this`page, this`icon, this`events
      ensures Valid()
      ensures var c := CaptureAll(old(listing), FileNames(actions, clock));
        var r := Regenerate(c.listing);
        && (!c.complete || r.Failure? ==>
              && listing == c.listing && page == old(page) && icon == old(icon)
              && events == old(events) + SavedEvents(c.saved))
        && (c.complete && r.Success? ==>
              && listing == r.value.0 && page == Some(r.value.1) && icon == CameraOff
              && events == old(events) + SavedEvents(c.saved) + [Regenerated(r.value.1)] + [IconShown(CameraOff)])
    {
      ghost var c := CaptureAll(listing, FileNames(actions, clock));
      var complete := CaptureEach(actions, clock);
      assert listing == c.listing && complete == c.complete && events == old(events) + SavedEvents(c.saved);
      if !complete {
        return;
      }
      ghost var r := Regenerate(c.listing);
      var ok := GenerateQuickViewHtml();
      if !ok {
        return;
      }
      icon := CameraOff;
      events := events + [IconShown(CameraOff)];
    }

    /**
     * cameraClick, with one clock reading per checked screen: nothing when no
     * screen is checked, otherwise the icon on and the capture task run.
     */
    method CameraClick(clock: seq<string>)
      requires Valid()
      requires |clock| == |Enabled(screens)|
      modifies this
      ensures Valid() && screens == old(screens)
      ensures AllDifferent(CaptureAll(old(listing), FileNames(CaptureNames(Enabled(old(screens))), clock)).saved)
      ensures var files := FileNames(CaptureNames(Enabled(old(screens))), clock);
        var c := CaptureAll(old(listing), files);
        var r := Regenerate(c.listing);
        && (files == [] ==> listing == old(listing) && page == old(page) && icon == old(icon) && events == old(events))
        && (files != [] && (!c.complete || r.Failure?) ==>
              && listing == c.listing && page == old(page) && icon == CameraOn
              && events == old(events) + [IconShown(CameraOn)] + SavedEvents(c.saved))
        && (files != [] && c.complete && r.Success? ==>
              && listing == r.value.0 && page == Some(r.value.1) && icon == CameraOff
              && events == old(events) + [IconShown(CameraOn)] + SavedEvents(c.saved) + [Regenerated(r.value.1)] + [IconShown(CameraOff)])
    {
      ClickSavesDistinctFiles(screens, listing, clock);
      var actions := CaptureNames(Enabled(screens));
      if |actions| == 0 {
        return;
      }
      icon := CameraOn;
      events := events + [IconShown(CameraOn)];
      CaptureTask(actions, clock);
    }
  }
}
