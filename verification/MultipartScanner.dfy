/**
 * The multipart boundary scanner: an online string matcher that, on a mismatch, falls back
 * to having matched one character or none.  The fallback finds exactly the occurrences of
 * the pattern for the regular patterns, and for no others.
 */
module MultipartMatcher {

  /** The matcher: the number of pattern characters matched after one more character. */
  function Advance(p: string, k: nat, c: char): nat
    requires k < |p|
  {
    if c == p[k] then k + 1 else if c == p[0] then 1 else 0
  }

  /** The matcher after a whole text; it stops at the first full match. */
  function Track(p: string, text: string): (k: nat)
    requires p != ""
    ensures k <= |p|
  {
    if text == "" then 0 else
      var k := Track(p, text[..|text| - 1]);
      if k == |p| then k else Advance(p, k, text[|text| - 1])
  }

  predicate EndsWith(text: string, p: string) {
    |p| <= |text| && text[|text| - |p|..] == p
  }

  predicate Contains(text: string, p: string) {
    exists e :: 0 <= e <= |text| && EndsWith(text[..e], p)
  }

  /**
   * Wherever a start of the pattern ends with a shorter start of it, both continue with the
   * same character.
   */
  predicate Regular(p: string) {
    forall i, k :: 1 <= i < k < |p| && EndsWith(p[..k], p[..i]) ==> p[i] == p[k]
  }

  lemma FirstCharOnceIsRegular(p: string)
    requires p != "" && p[0] !in p[1..]
    ensures Regular(p)
  {
    forall i, k | 1 <= i < k < |p|
      ensures !EndsWith(p[..k], p[..i])
    {
      assert p[..k][k - i..][0] == p[k - i] == p[1..][k - i - 1] != p[..i][0];
    }
  }

  lemma EndsWithPush(t: string, c: char, p: string, j: nat)
    requires j < |p|
    ensures EndsWith(t + [c], p[..j + 1]) <==> EndsWith(t, p[..j]) && c == p[j]
  {
    var q := p[..j + 1];
    assert q == p[..j] + [p[j]];
    if j <= |t| {
      assert (t + [c])[|t| - j..] == t[|t| - j..] + [c];
    }
  }

  lemma ContainsPush(t: string, c: char, p: string)
    ensures Contains(t + [c], p) <==> Contains(t, p) || EndsWith(t + [c], p)
  {
    var text := t + [c];
    assert text[..|text|] == text;
    assert forall e :: 0 <= e <= |t| ==> text[..e] == t[..e];
    if Contains(t, p) {
      var e :| 0 <= e <= |t| && EndsWith(t[..e], p);
      assert EndsWith(text[..e], p);
    }
  }

  lemma TrackPush(p: string, t: string, c: char)
    requires p != ""
    ensures Track(p, t + [c]) == if Track(p, t) == |p| then |p| else Advance(p, Track(p, t), c)
  {
    assert (t + [c])[..|t|] == t;
  }

  /** What the matcher claims to have matched is there. */
  lemma {:induction false} TrackSound(p: string, text: string)
    requires p != ""
    ensures Track(p, text) < |p| ==> EndsWith(text, p[..Track(p, text)])
    ensures Track(p, text) == |p| ==> Contains(text, p)
  {
    if text != "" {
      var t, c := text[..|text| - 1], text[|text| - 1];
      assert text == t + [c];
      TrackSound(p, t);
      var k := Track(p, t);
      TrackPush(p, t, c);
      ContainsPush(t, c, p);
      if k < |p| {
        EndsWithPush(t, c, p, k);
        EndsWithPush(t, c, p, 0);
        assert p[..|p|] == p;
      }
    }
  }

  lemma SuffixesNest(t: string, p: string, i: nat, k: nat)
    requires i <= k <= |p| && EndsWith(t, p[..i]) && EndsWith(t, p[..k])
    ensures EndsWith(p[..k], p[..i])
  {
    assert t[|t| - k..][k - i..] == t[|t| - i..];
  }

  lemma RegularAt(p: string, i: nat, k: nat)
    requires Regular(p) && 1 <= i < k < |p| && EndsWith(p[..k], p[..i])
    ensures p[i] == p[k]
  {
  }

  /** For a regular pattern the matcher holds the longest start of it the text ends with. */
  lemma {:induction false} TrackLongest(p: string, text: string, j: nat)
    requires p != "" && Regular(p) && Track(p, text) < |p|
    requires j <= |p| && EndsWith(text, p[..j])
    ensures j <= Track(p, text)
  {
    if j > 0 {
      var t, c := text[..|text| - 1], text[|text| - 1];
      assert text == t + [c];
      TrackPush(p, t, c);
      EndsWithPush(t, c, p, j - 1);
      hide Track, EndsWith, Regular;
      TrackLongest(p, t, j - 1);
      TrackSound(p, t);
      var k := Track(p, t);
      if 1 <= j - 1 < k {
        SuffixesNest(t, p, j - 1, k);
        RegularAt(p, j - 1, k);
      }
    }
  }

  lemma {:induction false} TrackMisses(p: string, text: string)
    requires p != "" && Regular(p) && Track(p, text) < |p|
    ensures !Contains(text, p)
  {
    if text == "" {
      assert text[..0] == "";
    } else {
      var t, c := text[..|text| - 1], text[|text| - 1];
      assert text == t + [c];
      TrackPush(p, t, c);
      TrackMisses(p, t);
      ContainsPush(t, c, p);
      if EndsWith(text, p) {
        assert p[..|p|] == p;
        TrackLongest(p, text, |p|);
      }
    }
  }

  lemma {:induction false} TrackOwnStart(p: string, k: nat)
    requires p != "" && k <= |p|
    ensures Track(p, p[..k]) == k
  {
    if k > 0 {
      TrackOwnStart(p, k - 1);
      assert p[..k] == p[..k - 1] + [p[k - 1]];
      TrackPush(p, p[..k - 1], p[k - 1]);
    }
  }

  lemma {:induction false} TrackGrowsSlowly(p: string, a: string, b: string)
    requires p != ""
    ensures Track(p, a + b) <= Track(p, a) + |b|
  {
    if b == "" {
      assert a + b == a;
    } else {
      var n := |b| - 1;
      assert a + b == a + b[..n] + [b[n]];
      TrackPush(p, a + b[..n], b[n]);
      TrackGrowsSlowly(p, a, b[..n]);
    }
  }

  lemma RepeatedStart(p: string, i: nat, k: nat)
    requires i < k < |p| && EndsWith(p[..k], p[..i])
    ensures Contains(p[..k] + p[i..], p)
  {
    var text := p[..k] + p[i..];
    assert text[k - i..] == p[..k][k - i..] + p[i..] == p[..i] + p[i..] == p;
    assert text[..|text|] == text;
    assert EndsWith(text[..|text|], p);
  }

  /** A pattern that is not regular occurs in a text in which the matcher never finds it. */
  lemma IrregularMissed(p: string, i: nat, k: nat) returns (text: string)
    requires 1 <= i < k < |p| && EndsWith(p[..k], p[..i]) && p[i] != p[k]
    ensures Contains(text, p) && Track(p, text) < |p|
  {
    text := p[..k] + p[i..];
    TrackOwnStart(p, k);
    TrackPush(p, p[..k], p[i]);
    assert text == p[..k] + [p[i]] + p[i + 1..];
    TrackGrowsSlowly(p, p[..k] + [p[i]], p[i + 1..]);
    RepeatedStart(p, i, k);
  }

  /** The matcher finds a pattern in every text that contains it iff the pattern is regular. */
  lemma MatcherExactIff(p: string)
    requires p != ""
    ensures Regular(p) <==> forall text :: Track(p, text) == |p| <==> Contains(text, p)
  {
    if Regular(p) {
      forall text
        ensures Track(p, text) == |p| <==> Contains(text, p)
      {
        TrackSound(p, text);
        if Track(p, text) < |p| {
          TrackMisses(p, text);
        }
      }
    } else {
      var i, k :| 1 <= i < k < |p| && EndsWith(p[..k], p[..i]) && p[i] != p[k];
      var text := IrregularMissed(p, i, k);
    }
  }
}

/** The scanner of a multipart stream (section 5.1.1 of RFC 2046). */
module MultipartScanner {
  import opened Bytes
  import opened MultipartMatcher

  const LF := '\n'

  datatype State = Boundary | Padding | Done

  /** Which delimiters count: both until one has been seen, then only that kind. */
  datatype Dashes = Unknown | With | Without

  function DelimiterWith(boundary: string): string {
    "\n--" + boundary
  }

  function DelimiterWithout(boundary: string): string {
    "\n" + boundary
  }

  /** A delimiter of an accepted kind ends here. */
  predicate Delimited(boundary: string, d: Dashes, text: string) {
    || (d != Without && EndsWith(text, DelimiterWith(boundary)))
    || (d != With && EndsWith(text, DelimiterWithout(boundary)))
  }

  /** The first end of an accepted delimiter is at `e`. */
  ghost predicate DelimitedAt(boundary: string, d: Dashes, text: string, e: nat) {
    && e <= |text|
    && Delimited(boundary, d, text[..e])
    && forall i :: 0 <= i < e ==> !Delimited(boundary, d, text[..i])
  }

  /** `text` runs up to and including the line feed that ends the first delimiter's line. */
  ghost predicate Skipped(boundary: string, d: Dashes, text: string) {
    exists e: nat :: SkippedAfter(boundary, d, text, e)
  }

  ghost predicate SkippedAfter(boundary: string, d: Dashes, text: string, e: nat) {
    DelimitedAt(boundary, d, text, e) && e < |text| && text[|text| - 1] == LF && LF !in text[e..|text| - 1]
  }

  ghost predicate NowhereSkipped(boundary: string, d: Dashes, text: string) {
    forall f :: 0 <= f <= |text| ==> !Skipped(boundary, d, text[..f])
  }

  /** What the two matchers make of a text. */
  predicate Hit(boundary: string, d: Dashes, text: string) {
    || (d != Without && Track(DelimiterWith(boundary), text) == |DelimiterWith(boundary)|)
    || (d != With && Track(DelimiterWithout(boundary), text) == |DelimiterWithout(boundary)|)
  }

  ghost predicate HitAt(boundary: string, d: Dashes, text: string, e: nat) {
    0 < e <= |text| && Hit(boundary, d, text[..e]) && !Hit(boundary, d, text[..e - 1])
  }

  /** The kind of the delimiter that ends a text. */
  function Kind(boundary: string, text: string): Dashes {
    if EndsWith(text, DelimiterWith(boundary)) then With else Without
  }

  /** Once a delimiter has been seen, exactly that delimiter is looked for, with its dashes or without. */
  lemma SameKindAgain(boundary: string, d: Dashes, text: string, next: string)
    requires Delimited(boundary, d, text)
    ensures EndsWith(text, "\n--" + boundary) || EndsWith(text, "\n" + boundary)
    ensures Delimited(boundary, Kind(boundary, text), next)
       <==> EndsWith(next, if EndsWith(text, "\n--" + boundary) then "\n--" + boundary else "\n" + boundary)
  {
  }

  /** The delimiters of the accepted kinds are regular: true of every boundary that keeps to one line. */
  predicate Plain(boundary: string, d: Dashes) {
    (d != Without ==> Regular(DelimiterWith(boundary))) && (d != With ==> Regular(DelimiterWithout(boundary)))
  }

  lemma OneLineIsPlain(boundary: string, d: Dashes)
    requires LF !in boundary
    ensures Plain(boundary, d)
  {
    assert DelimiterWith(boundary)[1..] == "--" + boundary;
    assert DelimiterWithout(boundary)[1..] == boundary;
    FirstCharOnceIsRegular(DelimiterWith(boundary));
    FirstCharOnceIsRegular(DelimiterWithout(boundary));
  }

  lemma ContainsPrefix(text: string, e: nat, p: string)
    requires e <= |text|
    ensures Contains(text[..e], p) <==> exists i :: 0 <= i <= e && EndsWith(text[..i], p)
  {
    assert forall i :: 0 <= i <= e ==> text[..e][..i] == text[..i];
  }

  /** For a plain boundary the matchers have hit something iff a delimiter has ended. */
  lemma HitIff(boundary: string, d: Dashes, text: string, e: nat)
    requires Plain(boundary, d) && e <= |text|
    ensures Hit(boundary, d, text[..e]) <==> exists i :: 0 <= i <= e && Delimited(boundary, d, text[..i])
  {
    var p, q := DelimiterWith(boundary), DelimiterWithout(boundary);
    MatcherExactIff(p);
    MatcherExactIff(q);
    ContainsPrefix(text, e, p);
    ContainsPrefix(text, e, q);
    hide Track, Regular, Contains, EndsWith;
    assert d != Without ==> (Track(p, text[..e]) == |p| <==> Contains(text[..e], p));
    assert d != With ==> (Track(q, text[..e]) == |q| <==> Contains(text[..e], q));
    if i :| 0 <= i <= e && d != Without && EndsWith(text[..i], p) {
      assert Delimited(boundary, d, text[..i]);
    }
    if i :| 0 <= i <= e && d != With && EndsWith(text[..i], q) {
      assert Delimited(boundary, d, text[..i]);
    }
  }

  lemma FirstHit(boundary: string, d: Dashes, text: string, e: nat)
    requires Plain(boundary, d) && HitAt(boundary, d, text, e)
    ensures DelimitedAt(boundary, d, text, e)
  {
    HitIff(boundary, d, text, e);
    HitIff(boundary, d, text, e - 1);
    hide Plain, Hit, Delimited;
  }

  /** The two kinds of delimiter never end at the same place. */
  lemma KindsApart(boundary: string, text: string)
    requires EndsWith(text, DelimiterWith(boundary))
    ensures !EndsWith(text, DelimiterWithout(boundary))
  {
    var p, q := DelimiterWith(boundary), DelimiterWithout(boundary);
    assert text[|text| - |p|..][2] == p[2] == '-';
    assert text[|text| - |q|..][0] == text[|text| - |q|];
    assert q[0] == LF;
  }

  lemma TrackFirst(p: string, t: string, c: char)
    requires p != "" && Track(p, t) < |p| && Track(p, t + [c]) == |p|
    ensures EndsWith(t + [c], p)
  {
    TrackPush(p, t, c);
    TrackSound(p, t);
    EndsWithPush(t, c, p, |p| - 1);
    assert p[..|p|] == p;
  }

  /** The matchers' positions in a text in which neither has found its delimiter. */
  ghost predicate Tracks(boundary: string, d: Dashes, text: string, posWith: nat, posWithout: nat) {
    && !Hit(boundary, d, text)
    && posWith == (if d == Without then 0 else Track(DelimiterWith(boundary), text))
    && posWithout == (if d == With then 0 else Track(DelimiterWithout(boundary), text))
  }

  lemma TracksBounds(boundary: string, d: Dashes, text: string, posWith: nat, posWithout: nat)
    requires Tracks(boundary, d, text, posWith, posWithout)
    ensures posWith < |DelimiterWith(boundary)| && posWithout < |DelimiterWithout(boundary)|
  {
  }

  /** One character with neither delimiter completed. */
  lemma TracksOn(boundary: string, d: Dashes, text: string, posWith: nat, posWithout: nat, c: char)
    requires Tracks(boundary, d, text, posWith, posWithout)
    requires posWith < |DelimiterWith(boundary)| && posWithout < |DelimiterWithout(boundary)|
    ensures var next := if d == Without then 0 else Advance(DelimiterWith(boundary), posWith, c);
            var other := if d == With then 0 else Advance(DelimiterWithout(boundary), posWithout, c);
            next < |DelimiterWith(boundary)| && other < |DelimiterWithout(boundary)|
            ==> Tracks(boundary, d, text + [c], next, other)
  {
    TrackPush(DelimiterWith(boundary), text, c);
    TrackPush(DelimiterWithout(boundary), text, c);
    hide Advance, Track;
  }

  /** One character that completes a delimiter. */
  lemma TracksHit(boundary: string, d: Dashes, text: string, posWith: nat, posWithout: nat, c: char)
    requires Tracks(boundary, d, text, posWith, posWithout)
    requires posWith < |DelimiterWith(boundary)| && posWithout < |DelimiterWithout(boundary)|
    ensures d != Without && Advance(DelimiterWith(boundary), posWith, c) == |DelimiterWith(boundary)|
            ==> HitAt(boundary, d, text + [c], |text| + 1) && Kind(boundary, text + [c]) == With
    ensures d != With && Advance(DelimiterWithout(boundary), posWithout, c) == |DelimiterWithout(boundary)|
            ==> HitAt(boundary, d, text + [c], |text| + 1) && Kind(boundary, text + [c]) == Without
  {
    var p, q, all := DelimiterWith(boundary), DelimiterWithout(boundary), text + [c];
    TrackPush(p, text, c);
    TrackPush(q, text, c);
    assert all[..|all|] == all && all[..|text|] == text;
    hide Advance, Track;
    if d != Without && Track(p, all) == |p| {
      TrackFirst(p, text, c);
    }
    if d != With && Track(q, all) == |q| {
      TrackFirst(q, text, c);
      if EndsWith(all, p) {
        KindsApart(boundary, all);
      }
    }
  }

  lemma Cut(a: string, b: string, i: nat)
    requires i <= |b|
    ensures a + b[..i] + b[i..] == a + b
    ensures (a + b)[..|a + b| - |b| + i] == a + b[..i]
    ensures b[|b|..] == ""
  {
  }

  /** Every character of the padding kept so far. */
  lemma HitAtExtends(boundary: string, d: Dashes, text: string, more: string, e: nat)
    requires HitAt(boundary, d, text, e)
    ensures HitAt(boundary, d, text + more, e)
  {
    assert (text + more)[..e] == text[..e] && (text + more)[..e - 1] == text[..e - 1];
  }

  class HttpMultipartScanner {
    var boundaryWith: string
    var boundaryWithout: string
    var state: State
    var posWith: nat
    var posWithout: nat
    var dashes: Dashes
    var saveSkipped: bool
    var buf: string

    ghost var boundary: string

    // The text consumed since the last reset, what was looked for in it, and the end of
    // the delimiter found there.
    ghost var seen: string
    ghost var sought: string
    ghost var search: Dashes
    ghost var end: nat

    ghost predicate Named()
      reads this`boundaryWith, this`boundaryWithout, this`boundary
    {
      boundaryWith == DelimiterWith(boundary) && boundaryWithout == DelimiterWithout(boundary)
    }

    ghost predicate Searching()
      reads this`boundary, this`sought, this`search, this`dashes, this`seen, this`posWith, this`posWithout
    {
      dashes == search && sought == boundary && Tracks(boundary, search, seen, posWith, posWithout)
    }

    /** In the rest of the delimiter's line. */
    ghost predicate Padded(text: string)
      reads this`sought, this`search, this`end
    {
      end <= |text| && HitAt(sought, search, text, end) && LF !in text[end..]
    }

    ghost predicate Progress()
      reads this`state, this`boundary, this`sought, this`search, this`dashes, this`seen, this`end, this`posWith
      reads this`posWithout
    {
      match state
      case Boundary => Searching()
      case Padding => sought == boundary && Padded(seen) && dashes == Kind(sought, seen[..end])
      case Done => seen != "" && Padded(seen[..|seen| - 1]) && seen[|seen| - 1] == LF
    }

    ghost predicate Valid()
      reads this
    {
      && Named()
      && buf == (if saveSkipped then seen else "")
      && Progress()
    }

    constructor (boundary: string, saveSkipped: bool)
      ensures Valid() && state == Boundary && seen == "" && dashes == Unknown
      ensures this.boundary == boundary && this.saveSkipped == saveSkipped
    {
      this.saveSkipped := saveSkipped;
      state := Boundary;
      posWith, posWithout, buf := 0, 0, "";
      boundaryWith := "\n--" + boundary;
      boundaryWithout := "\n" + boundary;
      dashes := Unknown;
      this.boundary, seen, sought, search, end := boundary, "", boundary, Unknown, 0;
    }

    /** Safe only when done, or before any input since the last reset. */
    method SetBoundary(boundary: string)
      requires Valid() && (state == Done || (state == Boundary && seen == ""))
      modifies this
      ensures Valid() && this.boundary == boundary && dashes == Unknown
      ensures state == old(state) && seen == old(seen) && saveSkipped == old(saveSkipped) && buf == old(buf)
      ensures state == Done ==> sought == old(sought) && search == old(search) && end == old(end)
    {
      hide HitAt;
      boundaryWith := "\n--" + boundary;
      boundaryWithout := "\n" + boundary;
      dashes := Unknown;
      this.boundary := boundary;
      if state == Boundary {
        sought, search := boundary, Unknown;
      }
    }

    method Reset(saveSkipped: bool)
      requires Named()
      modifies this
      ensures Valid() && state == Boundary && seen == "" && this.saveSkipped == saveSkipped
      ensures boundary == old(boundary) && dashes == old(dashes) && sought == boundary && search == dashes
    {
      this.saveSkipped := saveSkipped;
      state := Boundary;
      posWith, posWithout := 0, 0;
      buf := "";
      seen, sought, search := "", boundary, dashes;
    }

    /** One character of the search for a delimiter. */
    method Match(ch: char)
      requires Named() && state == Boundary && Searching()
      modifies this`state, this`posWith, this`posWithout, this`dashes, this`seen, this`end
      ensures seen == old(seen) + [ch]
      ensures state == Boundary ==> Searching()
      ensures state != Boundary ==> state == Padding && HitAt(boundary, search, seen, |seen|) && end == |seen|
      ensures state != Boundary ==> dashes == Kind(boundary, seen)
    {
      TracksBounds(boundary, dashes, seen, posWith, posWithout);
      TracksOn(boundary, dashes, seen, posWith, posWithout, ch);
      TracksHit(boundary, dashes, seen, posWith, posWithout, ch);
      hide Tracks, HitAt, Kind, DelimiterWith, DelimiterWithout;
      seen := seen + [ch];
      end := |seen|;
      if dashes != Without {
        if ch == boundaryWith[posWith] {
          posWith := posWith + 1;
          if posWith == |boundaryWith| {
            state := Padding;
            dashes := With;
            return;
          }
        } else if ch == boundaryWith[0] {
          posWith := 1;
        } else {
          posWith := 0;
        }
      }
      if dashes != With {
        if ch == boundaryWithout[posWithout] {
          posWithout := posWithout + 1;
          if posWithout == |boundaryWithout| {
            state := Padding;
            dashes := Without;
            return;
          }
        } else if ch == boundaryWithout[0] {
          posWithout := 1;
        } else {
          posWithout := 0;
        }
      }
    }

    /** Consumes input up to the end of the first delimiter. */
    method FindBoundary(input: string) returns (pos: nat)
      requires Named() && state == Boundary && Searching()
      modifies this`state, this`posWith, this`posWithout, this`dashes, this`seen, this`end
      ensures pos <= |input| && seen == old(seen) + input[..pos]
      ensures state == Boundary ==> Searching() && pos == |input|
      ensures state != Boundary ==> state == Padding && Padded(seen) && dashes == Kind(boundary, seen[..end])
    {
      hide Tracks, HitAt, Kind;
      pos := 0;
      while pos < |input| && state == Boundary
        invariant pos <= |input| && seen == old(seen) + input[..pos]
        invariant state == Boundary ==> Searching()
        invariant state != Boundary ==> state == Padding && HitAt(boundary, search, seen, |seen|) && end == |seen|
        invariant state != Boundary ==> sought == boundary && dashes == Kind(boundary, seen)
      {
        Match(input[pos]);
        pos := pos + 1;
        assert input[..pos] == input[..pos - 1] + [input[pos - 1]];
      }
      assert seen[..|seen|] == seen;
    }

    /** Consumes input up to the next line feed. */
    method FindLineEnd(input: string, start: nat) returns (pos: nat)
      requires start <= |input| && state == Padding && Padded(seen)
      modifies this`state, this`seen
      ensures start <= pos <= |input| && seen == old(seen) + input[start..pos]
      ensures state == Padding ==> Padded(seen) && pos == |input|
      ensures state != Padding ==> state == Done && seen != "" && Padded(seen[..|seen| - 1]) && seen[|seen| - 1] == LF
    {
      hide HitAt;
      pos := start;
      while pos < |input|
        invariant start <= pos <= |input| && seen == old(seen) + input[start..pos]
        invariant state == Padding && Padded(seen)
      {
        ghost var before := seen;
        var ch := input[pos];
        pos := pos + 1;
        seen := seen + [ch];
        assert input[start..pos] == input[start..pos - 1] + [ch];
        assert seen[..|seen| - 1] == before;
        if ch == LF {
          state := Done;
          return;
        }
        HitAtExtends(sought, search, before, [ch], end);
        assert seen[end..] == before[end..] + [ch];
      }
    }

    /** Consumes input up to the end of the first delimiter's line. */
    method Consume(input: string) returns (pos: nat)
      requires Named() && state != Done && Progress()
      modifies this`state, this`posWith, this`posWithout, this`dashes, this`seen, this`end
      ensures pos <= |input| && seen == old(seen) + input[..pos]
      ensures Progress() && (state != Done ==> pos == |input|)
      ensures dashes == if state == Boundary then search else Kind(sought, seen[..end])
    {
      hide Tracks, HitAt, Kind, DelimiterWith, DelimiterWithout;
      pos := 0;
      if state == Boundary {
        pos := FindBoundary(input);
      }
      if state == Padding {
        ghost var before := seen;
        ghost var start := pos;
        pos := FindLineEnd(input, pos);
        assert input[..pos] == input[..start] + input[start..pos];
        assert seen[..end] == before[..end];
      }
    }

    /**
     * Takes more input and returns what follows the delimiter's line, if that line has
     * ended.  A scanner that is done starts over, now accepting only the kind of delimiter
     * it found before.
     */
    method Execute(input: string) returns (rest: string)
      requires Valid()
      modifies this
      ensures Valid() && boundary == old(boundary) && saveSkipped == old(saveSkipped)
      ensures seen + rest == (if old(state) == Done then "" else old(seen)) + input
      ensures sought == if old(state) == Done then old(boundary) else old(sought)
      ensures search == if old(state) == Done then old(dashes) else old(search)
      ensures state != Done ==> rest == ""
      ensures dashes == if state == Boundary then search else Kind(sought, seen[..end])
    {
      hide Progress, Searching, Padded, Kind, DelimiterWith, DelimiterWithout;
      if state == Done {
        Reset(saveSkipped);
      }
      if saveSkipped {
        buf := buf + input;
      }
      ghost var before := seen;
      var pos := Consume(input);
      Cut(before, input, pos);
      if state == Done && saveSkipped {
        buf := buf[..|buf| - |input| + pos];
      }
      rest := input[pos..];
    }

    /** What the scanner's state says about the text it has consumed. */
    lemma Finds()
      requires Valid() && Plain(sought, search)
      ensures state == Boundary ==> forall e :: 0 <= e <= |seen| ==> !Delimited(sought, search, seen[..e])
      ensures state == Padding ==> DelimitedAt(sought, search, seen, end) && LF !in seen[end..]
      ensures state == Done ==> Skipped(sought, search, seen)
    {
      hide Plain, Delimited, Hit;
      match state {
        case Boundary =>
          HitIff(sought, search, seen, |seen|);
          assert seen[..|seen|] == seen;
        case Padding =>
          FirstHit(sought, search, seen, end);
        case Done =>
          var n := |seen| - 1;
          FirstHit(sought, search, seen[..n], end);
          assert seen[..n][end..] == seen[end..n];
          assert forall i :: 0 <= i <= n ==> seen[..n][..i] == seen[..i];
          assert SkippedAfter(sought, search, seen, end);
      }
    }
  }

  /** A text has at most one start that runs to the end of the first delimiter's line. */
  lemma SkippedPast(boundary: string, d: Dashes, text: string, e: nat, f: nat)
    requires e <= |text| && DelimitedAt(boundary, d, text, e) && LF !in text[e..]
    requires f <= |text|
    ensures !Skipped(boundary, d, text[..f])
  {
    hide Delimited;
    assert forall i :: 0 <= i <= f ==> text[..f][..i] == text[..i];
    assert forall i :: e <= i < |text| ==> text[e..][i - e] == text[i];
  }

  lemma NeverSkipped(boundary: string, d: Dashes, text: string, f: nat)
    requires forall e :: 0 <= e <= |text| ==> !Delimited(boundary, d, text[..e])
    requires f <= |text|
    ensures !Skipped(boundary, d, text[..f])
  {
    hide Delimited;
    assert forall e :: 0 <= e <= f ==> text[..f][..e] == text[..e];
  }

  /**
   * However a text is cut into calls, a scanner whose boundary is plain for the kinds it accepts
   * (`OneLineIsPlain`) is done iff the text holds an accepted delimiter whose line ends, it has then consumed
   * exactly up to the end of the first one's line, and what it saved is exactly that.
   */
  method ScanPieces(scanner: HttpMultipartScanner, pieces: seq<string>) returns (rest: string, used: nat)
    requires scanner.Valid() && scanner.state == Boundary && scanner.seen == ""
    requires Plain(scanner.boundary, scanner.dashes)
    modifies scanner
    ensures scanner.Valid() && used <= |pieces|
    ensures scanner.seen + rest + Flatten(pieces[used..]) == Flatten(pieces)
    ensures scanner.buf == if old(scanner.saveSkipped) then scanner.seen else ""
    ensures scanner.state == Done ==> Skipped(old(scanner.boundary), old(scanner.dashes), scanner.seen)
    ensures scanner.state != Done ==> scanner.seen == Flatten(pieces)
    ensures scanner.state != Done ==> NowhereSkipped(old(scanner.boundary), old(scanner.dashes), Flatten(pieces))
  {
    assert scanner.sought == scanner.boundary && scanner.search == scanner.dashes;
    assert pieces[0..] == pieces;
    hide Skipped, NowhereSkipped, Plain, Kind, Flatten, HttpMultipartScanner.Progress, HttpMultipartScanner.Named;
    used, rest := 0, "";
    while used < |pieces| && scanner.state != Done
      invariant used <= |pieces| && scanner.Valid()
      invariant scanner.state != Done ==> rest == ""
      invariant scanner.saveSkipped == old(scanner.saveSkipped)
      invariant scanner.sought == old(scanner.boundary) && scanner.search == old(scanner.dashes)
      invariant scanner.seen + rest + Flatten(pieces[used..]) == Flatten(pieces)
    {
      FlattenFrom(pieces, used);
      rest := scanner.Execute(pieces[used]);
      used := used + 1;
    }
    Concludes(scanner);
    if scanner.state != Done {
      FlattenNone(pieces[used..]);
    }
  }

  lemma Concludes(scanner: HttpMultipartScanner)
    requires scanner.Valid() && Plain(scanner.sought, scanner.search)
    ensures scanner.state == Done ==> Skipped(scanner.sought, scanner.search, scanner.seen)
    ensures scanner.state != Done ==> NowhereSkipped(scanner.sought, scanner.search, scanner.seen)
  {
    hide Skipped, DelimitedAt, Delimited, Tracks, HitAt, Plain, Kind;
    scanner.Finds();
    var text := scanner.seen;
    if scanner.state != Done {
      forall f | 0 <= f <= |text|
        ensures !Skipped(scanner.sought, scanner.search, text[..f])
      {
        if scanner.state == Boundary {
          NeverSkipped(scanner.sought, scanner.search, text, f);
        } else {
          SkippedPast(scanner.sought, scanner.search, text, scanner.end, f);
        }
      }
    }
  }

  /** What is skipped in front of a part: everything up to the end of the delimiter's line. */
  lemma PreambleSkipped()
    ensures Skipped("b", Unknown, "hi\n--b \n")
  {
    var text, p, q := "hi\n--b \n", DelimiterWith("b"), DelimiterWithout("b");
    assert p == "\n--b" && q == "\nb" && text[..6] == "hi\n--b" && text[6..7] == " ";
    assert text[..6][2..] == p;
    assert forall i :: 0 <= i < 6 ==> text[..i] == "hi\n--b"[..i];
    assert forall i :: 0 <= i < 6 && i >= 1 ==> text[..i][i - 1] != 'b';
    assert forall i :: 0 <= i < 6 ==> !EndsWith(text[..i], p) && !EndsWith(text[..i], q);
    assert SkippedAfter("b", Unknown, text, 6);
  }

  /**
   * A boundary that spans lines can be missed: the matcher for this one drops from two
   * matched characters to one, although the text still ends with two.
   */
  lemma LineFeedMissed()
    ensures Delimited("\nx", Unknown, "\n\n\nx")
    ensures !Hit("\nx", Unknown, "\n\n\nx")
  {
    var p, q := DelimiterWith("\nx"), DelimiterWithout("\nx");
    assert p == ['\n', '-', '-', '\n', 'x'] && q == ['\n', '\n', 'x'];
    var one, two, three, four := ['\n'], ['\n', '\n'], ['\n', '\n', '\n'], ['\n', '\n', '\n', 'x'];
    assert one == "" + ['\n'] && two == one + ['\n'] && three == two + ['\n'] && four == three + ['x'];
    TrackPush(p, "", '\n');
    TrackPush(p, one, '\n');
    TrackPush(p, two, '\n');
    TrackPush(p, three, 'x');
    TrackPush(q, "", '\n');
    TrackPush(q, one, '\n');
    TrackPush(q, two, '\n');
    TrackPush(q, three, 'x');
    assert four == "\n\n\nx";
  }
}
