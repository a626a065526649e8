/**
 * The screens found at start-up, each paired with the check-box menu item that
 * labels it and says whether it takes part in a capture click.
 */
module Screens {
  import opened Strings

  /**
   * The rectangle a display covers in the virtual desktop, the
   * `defaultConfiguration.bounds` a capture grabs. The capture itself is not
   * modelled, so no contract reads it.
   */
  datatype Bounds = Bounds(x: int, y: int, width: int, height: int)

  /** A display as the windowing toolkit enumerates it. */
  datatype Device = Device(bounds: Bounds)

  /** A display with its menu item: the item's label and its check state. */
  datatype Screen = Screen(device: Device, itemLabel: string, enabled: bool)

  const LabelPrefix := "Screen "
  const CapturePrefix := "Screen"

  /** The menu label of the display at 0-based position `index`. */
  function Label(index: nat): (r: string)
    ensures |r| > |LabelPrefix| && r[..|LabelPrefix|] == LabelPrefix
    ensures forall c :: c in r[|LabelPrefix|..] ==> '0' <= c <= '9'
  {
    LabelPrefix + NatToString(index + 1)
  }

  /** Different positions get different labels. */
  lemma LabelInjective(i: nat, j: nat)
    requires Label(i) == Label(j)
    ensures i == j
  {
    assert Label(i)[|LabelPrefix|..] == NatToString(i + 1);
    assert Label(j)[|LabelPrefix|..] == NatToString(j + 1);
    NatToStringInjective(i + 1, j + 1);
  }

  predicate DistinctLabels(screens: seq<Screen>) {
    forall i, j :: 0 <= i < j < |screens| ==> screens[i].itemLabel != screens[j].itemLabel
  }

  /** The start-up pairing of every enumerated display with a checked menu item. */
  function Enumerate(devices: seq<Device>): (screens: seq<Screen>)
    ensures |screens| == |devices|
    ensures forall i :: 0 <= i < |screens| ==> screens[i].device == devices[i] && screens[i].enabled
  {
    seq(|devices|, i requires 0 <= i < |devices| => Screen(devices[i], Label(i), true))
  }

  /**
   * The displays are labelled "Screen 1" to "Screen N" in enumeration order, so
   * no two of them share a label.
   */
  lemma EnumerateLabels(devices: seq<Device>)
    ensures forall i :: 0 <= i < |devices| ==> Enumerate(devices)[i].itemLabel == "Screen " + NatToString(i + 1)
    ensures DistinctLabels(Enumerate(devices))
  {
    var screens := Enumerate(devices);
    forall i, j | 0 <= i < j < |screens|
      ensures screens[i].itemLabel != screens[j].itemLabel
    {
      if screens[i].itemLabel == screens[j].itemLabel {
        LabelInjective(i, j);
      }
    }
  }

  /** The screens whose menu item is checked, in enumeration order. */
  function Enabled(screens: seq<Screen>): (r: seq<Screen>)
    ensures |r| <= |screens|
    ensures forall s :: s in r <==> s in screens && s.enabled
  {
    if screens == [] then []
    else
      assert forall s :: s in screens <==> s == screens[0] || s in screens[1..];
      (if screens[0].enabled then [screens[0]] else []) + Enabled(screens[1..])
  }

  /** The filter keeps the enumeration order: it works on each part of a concatenation separately. */
  lemma {:induction false} EnabledConcat(a: seq<Screen>, b: seq<Screen>)
    ensures Enabled(a + b) == Enabled(a) + Enabled(b)
  {
    if a == [] {
      assert a + b == b;
    } else {
      assert (a + b)[1..] == a[1..] + b;
      EnabledConcat(a[1..], b);
    }
  }

  /** A click has nothing to capture exactly when no menu item is checked. */
  lemma EnabledEmpty(screens: seq<Screen>)
    ensures Enabled(screens) == [] <==> forall i :: 0 <= i < |screens| ==> !screens[i].enabled
  {
    if Enabled(screens) != [] {
      assert Enabled(screens)[0] in Enabled(screens);
    }
  }

  /** A screen whose label none of `rest` carries can go in front of them. */
  lemma DistinctLabelsCons(first: Screen, rest: seq<Screen>)
    requires DistinctLabels(rest)
    requires forall s :: s in rest ==> s.itemLabel != first.itemLabel
    ensures DistinctLabels([first] + rest)
  {
    var all := [first] + rest;
    forall i, j | 0 <= i < j < |all| ensures all[i].itemLabel != all[j].itemLabel {
      assert all[j] == rest[j - 1] && rest[j - 1] in rest;
      if i > 0 {
        assert all[i] == rest[i - 1];
      }
    }
  }

  /** Labels that differ across all screens still differ across the enabled ones. */
  lemma {:induction false} EnabledKeepsLabelsDistinct(screens: seq<Screen>)
    requires DistinctLabels(screens)
    ensures DistinctLabels(Enabled(screens))
  {
    if screens != [] {
      var rest := screens[1..];
      assert DistinctLabels(rest) by {
        forall i, j | 0 <= i < j < |rest| ensures rest[i].itemLabel != rest[j].itemLabel {
          assert rest[i] == screens[i + 1] && rest[j] == screens[j + 1];
        }
      }
      EnabledKeepsLabelsDistinct(rest);
      if screens[0].enabled {
        var r := Enabled(rest);
        forall s | s in r ensures s.itemLabel != screens[0].itemLabel {
          var k :| 0 <= k < |rest| && rest[k] == s;
          assert s == screens[k + 1];
        }
        assert Enabled(screens) == [screens[0]] + r;
        DistinctLabelsCons(screens[0], r);
      }
    }
  }

  /** The name captureScreen receives for a screen: its menu label behind "Screen". */
  function CaptureName(itemLabel: string): (r: string)
    ensures |r| == |CapturePrefix| + |itemLabel|
    ensures r[..|CapturePrefix|] == CapturePrefix && r[|CapturePrefix|..] == itemLabel
  {
    CapturePrefix + itemLabel
  }

  /** One capture name per enabled screen, in enumeration order. */
  function CaptureNames(selected: seq<Screen>): (names: seq<string>)
    ensures |names| == |selected|
  {
    seq(|selected|, i requires 0 <= i < |selected| => CaptureName(selected[i].itemLabel))
  }

  /** Screens with distinct labels get distinct capture names. */
  lemma CaptureNamesDistinct(selected: seq<Screen>)
    requires DistinctLabels(selected)
    ensures AllDifferent(CaptureNames(selected))
  {
    var names := CaptureNames(selected);
    forall i, j | 0 <= i < j < |names| ensures names[i] != names[j] {
      assert names[i][|CapturePrefix|..] == selected[i].itemLabel;
      assert names[j][|CapturePrefix|..] == selected[j].itemLabel;
    }
  }

  /** The capture name of the display at position `index` repeats the word: "ScreenScreen k". */
  lemma CaptureNameOfLabel(index: nat)
    ensures CaptureName(Label(index)) == "ScreenScreen " + NatToString(index + 1)
  {
  }
}
