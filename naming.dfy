/**
 * How captureScreen names a snapshot: the local date-time string with ':' and '.'
 * turned into '-', the date/time separator 'T' turned into "__", cut to 20
 * characters, then "__", the capture name and ".png".
 */
module Naming {
  import opened Results
  import opened Strings

  /** Length of the time part of every snapshot name. */
  const TimeLength: nat := 20
  const Separator := "__"
  const Extension := ".png"

  /** What the three chained replace calls do to one character. */
  function NormalizedChar(c: char): string {
    if c == ':' || c == '.' then "-" else if c == 'T' then "__" else [c]
  }

  /** The time string with every character rewritten at once. */
  function Normalized(s: string): (r: string)
    ensures |r| == |s| + Count(s, 'T')
    ensures ':' !in r && '.' !in r && 'T' !in r
  {
    if s == [] then [] else NormalizedChar(s[0]) + Normalized(s[1..])
  }

  /** The replace chain as written: three passes over the whole string. */
  function Normalize(s: string): (r: string)
    ensures ':' !in r && '.' !in r && 'T' !in r
  {
    Replace(Replace(Replace(s, ':', "-"), '.', "-"), 'T', "__")
  }

  /**
   * The three passes agree with the one-character rewriting: no pass introduces
   * a character that a later pass rewrites.
   */
  lemma {:induction false} NormalizeIsPerCharacter(s: string)
    ensures Normalize(s) == Normalized(s)
  {
    if s != [] {
      var x, rest := s[0], s[1..];
      assert s == [x] + rest;
      ReplaceConcat([x], rest, ':', "-");
      var a, ra := Replace([x], ':', "-"), Replace(rest, ':', "-");
      ReplaceConcat(a, ra, '.', "-");
      var b, rb := Replace(a, '.', "-"), Replace(ra, '.', "-");
      ReplaceConcat(b, rb, 'T', "__");
      NormalizeIsPerCharacter(rest);
      assert Replace(b, 'T', "__") == NormalizedChar(x);
    }
  }

  /**
   * The time part of a snapshot name: the normalised string cut to its first 20
   * characters, or the exception `subSequence(0, 20)` raises when it is shorter.
   */
  function TimeStr(stamp: string): (r: Result<string>)
    ensures r.Success? <==> |stamp| + Count(stamp, 'T') >= TimeLength
    ensures r.Success? ==> |r.value| == TimeLength && r.value <= Normalized(stamp)
    ensures r.Success? ==> ':' !in r.value && '.' !in r.value && 'T' !in r.value
    ensures r.Failure? ==> r.error == StringIndexOutOfBounds(TimeLength, |Normalized(stamp)|)
  {
    NormalizeIsPerCharacter(stamp);
    var n := Normalize(stamp);
    if |n| < TimeLength then Failure(StringIndexOutOfBounds(TimeLength, |n|))
    else
      assert forall c :: c in n[..TimeLength] ==> c in n;
      Success(n[..TimeLength])
  }

  /** The file name built from a time part and a capture name. */
  function FileName(time: string, name: string): (r: string)
    ensures |r| == |time| + |Separator| + |name| + |Extension|
    ensures r[..|time|] == time && r[|time|..|r| - |Extension|] == Separator + name
    ensures EndsWith(r, Extension)
  {
    time + Separator + name + Extension
  }

  /** The name of the file one capture writes, from the clock reading and the capture name. */
  function SnapshotName(stamp: string, name: string): (r: Result<string>)
    ensures r.Success? <==> TimeStr(stamp).Success?
    ensures r.Success? ==> |r.value| == TimeLength + |Separator| + |name| + |Extension|
    ensures r.Success? ==> EndsWith(r.value, Extension)
    ensures r.Success? ==> r.value[..TimeLength] == TimeStr(stamp).value
    ensures r.Success? ==> r.value[TimeLength..|r.value| - |Extension|] == Separator + name
  {
    match TimeStr(stamp)
    case Failure(e) => Failure(e)
    case Success(time) => Success(FileName(time, name))
  }

  /** Two snapshot names built from 20-character time parts coincide only when both parts do. */
  lemma FileNameInjective(t1: string, n1: string, t2: string, n2: string)
    requires |t1| == TimeLength && |t2| == TimeLength
    requires FileName(t1, n1) == FileName(t2, n2)
    ensures t1 == t2 && n1 == n2
  {
    var f := FileName(t1, n1);
    assert f[TimeLength + |Separator|..|f| - |Extension|] == n1;
    assert FileName(t2, n2)[TimeLength + |Separator|..|f| - |Extension|] == n2;
  }

  /** Two captures whose clock readings render to the same second still get different names when their capture names differ. */
  lemma SnapshotNamesDiffer(s1: string, n1: string, s2: string, n2: string)
    requires SnapshotName(s1, n1).Success? && SnapshotName(s2, n2).Success?
    requires n1 != n2
    ensures SnapshotName(s1, n1).value != SnapshotName(s2, n2).value
  {
    if SnapshotName(s1, n1).value == SnapshotName(s2, n2).value {
      FileNameInjective(TimeStr(s1).value, n1, TimeStr(s2).value, n2);
    }
  }

  /** A string the replace chain leaves as it is. */
  predicate Plain(s: string) {
    ':' !in s && '.' !in s && 'T' !in s
  }

  lemma {:induction false} NormalizedConcat(a: string, b: string)
    ensures Normalized(a + b) == Normalized(a) + Normalized(b)
  {
    if a == [] {
      assert a + b == b;
    } else {
      assert (a + b)[1..] == a[1..] + b;
      NormalizedConcat(a[1..], b);
    }
  }

  lemma {:induction false} NormalizedPlain(s: string)
    requires Plain(s)
    ensures Normalized(s) == s
  {
    if s != [] {
      assert s[0] in s;
      assert forall c :: c in s[1..] ==> c in s;
      NormalizedPlain(s[1..]);
    }
  }

  /** The replace chain on `yyyy-MM-ddTHH:mm:ss` gives `yyyy-MM-dd__HH-mm-ss`. */
  lemma NormalizedIsoSeconds(date: string, hh: string, mm: string, ss: string)
    requires Plain(date) && Plain(hh) && Plain(mm) && Plain(ss)
    ensures Normalized(date + "T" + hh + ":" + mm + ":" + ss) == date + "__" + hh + "-" + mm + "-" + ss
  {
    assert Normalized("T") == "__" && Normalized(":") == "-";
    var p1 := date + "T";
    NormalizedConcat(date, "T"); NormalizedPlain(date);
    var p2 := p1 + hh;
    NormalizedConcat(p1, hh); NormalizedPlain(hh);
    var p3 := p2 + ":";
    NormalizedConcat(p2, ":");
    var p4 := p3 + mm;
    NormalizedConcat(p3, mm); NormalizedPlain(mm);
    var p5 := p4 + ":";
    NormalizedConcat(p4, ":");
    NormalizedConcat(p5, ss); NormalizedPlain(ss);
  }

  /**
   * A reading rendered with seconds, `yyyy-MM-ddTHH:mm:ss` and any fraction after
   * it, gives the time part `yyyy-MM-dd__HH-mm-ss`: the fraction is cut away.
   */
  lemma IsoStampWithSeconds(date: string, hh: string, mm: string, ss: string, fraction: string)
    requires |date| == 10 && |hh| == 2 && |mm| == 2 && |ss| == 2
    requires Plain(date) && Plain(hh) && Plain(mm) && Plain(ss)
    ensures TimeStr(date + "T" + hh + ":" + mm + ":" + ss + fraction)
         == Success(date + "__" + hh + "-" + mm + "-" + ss)
  {
    var whole := date + "T" + hh + ":" + mm + ":" + ss;
    var head := date + "__" + hh + "-" + mm + "-" + ss;
    NormalizedIsoSeconds(date, hh, mm, ss);
    NormalizedConcat(whole, fraction);
    var n := Normalized(whole + fraction);
    assert n == head + Normalized(fraction) && |head| == TimeLength;
    assert n[..TimeLength] == head;
    var r := TimeStr(whole + fraction);
    assert r.Success? ==> r.value == n[..TimeLength];
  }

  /**
   * LocalDateTime.toString() leaves the seconds out on a minute-aligned instant,
   * `yyyy-MM-ddTHH:mm`; the normalised string then has 17 characters and the cut
   * to 20 raises.
   */
  lemma IsoStampMinuteAlignedFails(date: string, hh: string, mm: string)
    requires |date| == 10 && |hh| == 2 && |mm| == 2
    requires Plain(date) && Plain(hh) && Plain(mm)
    ensures TimeStr(date + "T" + hh + ":" + mm) == Failure(StringIndexOutOfBounds(TimeLength, 17))
  {
    NormalizedConcat(date + "T" + hh + ":", mm);
    NormalizedConcat(date + "T" + hh, ":");
    NormalizedConcat(date + "T", hh);
    NormalizedConcat(date, "T");
    NormalizedPlain(date); NormalizedPlain(hh); NormalizedPlain(mm);
    assert |Normalized(date + "T" + hh + ":" + mm)| == 17;
  }
}
