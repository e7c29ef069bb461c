/** Grapheme cluster boundaries (gen_unicode_tables.py): a scan of three states against UAX #29's rules. */
module Graphemes {
  datatype Gcb =
    | Other | CR | LF | Control | Extend | ZWJ | RegionalIndicator | Prepend | SpacingMark
    | L | V | T | LV | LVT

  datatype Incb = NotConjunct | Consonant | Extender | Linker

  /** What the tables say of one codepoint. */
  datatype Properties = Properties(gcb: Gcb, incb: Incb, pictographic: bool)

  type Text = seq<Properties>

  // ----- the rules -----

  predicate IsControl(g: Gcb) {
    g.Control? || g.CR? || g.LF?
  }

  /** GB6 to GB8: Hangul syllables. */
  predicate Hangul(p: Gcb, next: Gcb) {
    || (p.L? && (next.L? || next.V? || next.LV? || next.LVT?))
    || ((p.LV? || p.V?) && (next.V? || next.T?))
    || ((p.LVT? || p.T?) && next.T?)
  }

  /** GB9 to GB9b. */
  predicate Attaches(p: Gcb, next: Gcb) {
    next.Extend? || next.ZWJ? || next.SpacingMark? || p.Prepend?
  }

  /** GB9c, behind position `k`: a consonant, then extenders and at least one linker. */
  ghost predicate ConjunctBefore(s: Text, k: nat)
    requires k <= |s|
  {
    exists i, j :: 0 <= i < j < k && s[i].incb.Consonant? && s[j].incb.Linker?
      && forall m :: i < m < k ==> s[m].incb.Extender? || s[m].incb.Linker?
  }

  /** GB11, behind position `k`: a pictograph, then extenders and a ZWJ. */
  ghost predicate PictographBefore(s: Text, k: nat)
    requires k <= |s|
  {
    exists i :: 0 <= i < k - 1 && s[i].pictographic && s[k - 1].gcb.ZWJ?
      && forall m :: i < m < k - 1 ==> s[m].gcb.Extend?
  }

  /** The number of regional indicators in a row that end at position `k`. */
  function IndicatorsBefore(s: Text, k: nat): nat
    requires k <= |s|
  {
    if k > 0 && s[k - 1].gcb.RegionalIndicator? then 1 + IndicatorsBefore(s, k - 1) else 0
  }

  /** Whether a boundary lies before the character at `k`: GB3 to GB13 and GB999, in their order. */
  ghost predicate Boundary(s: Text, k: nat)
    requires 0 < k < |s|
  {
    var p, next := s[k - 1], s[k];
    if p.gcb.CR? && next.gcb.LF? then false
    else if IsControl(p.gcb) || IsControl(next.gcb) then true
    else
      !( || Hangul(p.gcb, next.gcb)
         || Attaches(p.gcb, next.gcb)
         || (ConjunctBefore(s, k) && next.incb.Consonant?)
         || (PictographBefore(s, k) && next.pictographic)
         || (next.gcb.RegionalIndicator? && IndicatorsBefore(s, k) % 2 == 1))
  }

  // ----- the states -----

  datatype Conjunct = NoConjunct | AfterConsonant | AfterLinker

  datatype Pictograph = NoPictograph | AfterPictograph | AfterJoiner

  /** Behind `k`, a consonant with nothing but extenders and linkers after it. */
  ghost predicate ConsonantBefore(s: Text, k: nat)
    requires k <= |s|
  {
    exists i :: 0 <= i < k && s[i].incb.Consonant? && forall m :: i < m < k ==> s[m].incb.Extender? || s[m].incb.Linker?
  }

  /** What the conjunct state means. */
  ghost predicate ConjunctMeans(state: Conjunct, s: Text, k: nat)
    requires k <= |s|
  {
    && (state.AfterLinker? <==> ConjunctBefore(s, k))
    && (!state.NoConjunct? <==> ConsonantBefore(s, k))
  }

  function NextConjunct(state: Conjunct, incb: Incb): Conjunct {
    match incb
    case Consonant => AfterConsonant
    case Linker => if state.NoConjunct? then NoConjunct else AfterLinker
    case Extender => state
    case NotConjunct => NoConjunct
  }

  lemma ConjunctStep(state: Conjunct, s: Text, k: nat)
    requires k < |s| && ConjunctMeans(state, s, k)
    ensures ConjunctMeans(NextConjunct(state, s[k].incb), s, k + 1)
  {
    var links := s[k].incb.Extender? || s[k].incb.Linker?;
    ConsonantStep(s, k);
    LinkerStep(s, k);
  }

  lemma ConsonantStep(s: Text, k: nat)
    requires k < |s|
    ensures ConsonantBefore(s, k + 1) <==>
      s[k].incb.Consonant? || (ConsonantBefore(s, k) && (s[k].incb.Extender? || s[k].incb.Linker?))
  {
    if s[k].incb.Consonant? {
      assert s[k].incb.Consonant?;
    } else if ConsonantBefore(s, k) && (s[k].incb.Extender? || s[k].incb.Linker?) {
      var i :| 0 <= i < k && s[i].incb.Consonant? && forall m :: i < m < k ==> s[m].incb.Extender? || s[m].incb.Linker?;
      assert forall m :: i < m < k + 1 ==> s[m].incb.Extender? || s[m].incb.Linker?;
    }
  }

  lemma LinkerStep(s: Text, k: nat)
    requires k < |s|
    ensures ConjunctBefore(s, k + 1) <==>
      (s[k].incb.Linker? && ConsonantBefore(s, k)) || (s[k].incb.Extender? && ConjunctBefore(s, k))
  {
    if s[k].incb.Linker? && ConsonantBefore(s, k) {
      var i :| 0 <= i < k && s[i].incb.Consonant? && forall m :: i < m < k ==> s[m].incb.Extender? || s[m].incb.Linker?;
      assert forall m :: i < m < k + 1 ==> s[m].incb.Extender? || s[m].incb.Linker?;
      assert s[k].incb.Linker?;
    } else if s[k].incb.Extender? && ConjunctBefore(s, k) {
      var i, j :| 0 <= i < j < k && s[i].incb.Consonant? && s[j].incb.Linker?
        && forall m :: i < m < k ==> s[m].incb.Extender? || s[m].incb.Linker?;
      assert forall m :: i < m < k + 1 ==> s[m].incb.Extender? || s[m].incb.Linker?;
      assert s[j].incb.Linker?;
    }
    if ConjunctBefore(s, k + 1) {
      var i, j :| 0 <= i < j < k + 1 && s[i].incb.Consonant? && s[j].incb.Linker?
        && forall m :: i < m < k + 1 ==> s[m].incb.Extender? || s[m].incb.Linker?;
      assert s[i].incb.Consonant?;
      if j < k {
        assert s[j].incb.Linker?;
      }
    }
  }

  /** Behind `k`, a pictograph with nothing but extenders after it. */
  ghost predicate BarePictographBefore(s: Text, k: nat)
    requires k <= |s|
  {
    exists i :: 0 <= i < k && s[i].pictographic && forall m :: i < m < k ==> s[m].gcb.Extend?
  }

  ghost predicate PictographMeans(state: Pictograph, s: Text, k: nat)
    requires k <= |s|
  {
    && (state.AfterPictograph? <==> BarePictographBefore(s, k))
    && (state.AfterJoiner? <==> PictographBefore(s, k) && !s[k - 1].pictographic)
  }

  function NextPictograph(state: Pictograph, c: Properties): Pictograph {
    if c.pictographic then AfterPictograph
    else if state.AfterPictograph? && c.gcb.Extend? then AfterPictograph
    else if state.AfterPictograph? && c.gcb.ZWJ? then AfterJoiner
    else NoPictograph
  }

  lemma PictographStep(state: Pictograph, s: Text, k: nat)
    requires k < |s| && PictographMeans(state, s, k)
    ensures PictographMeans(NextPictograph(state, s[k]), s, k + 1)
  {
    BareStep(s, k);
    JoinerStep(s, k);
  }

  lemma BareStep(s: Text, k: nat)
    requires k < |s|
    ensures BarePictographBefore(s, k + 1) <==> s[k].pictographic || (BarePictographBefore(s, k) && s[k].gcb.Extend?)
  {
    if s[k].pictographic {
      assert s[k].pictographic;
    } else if BarePictographBefore(s, k) && s[k].gcb.Extend? {
      var i :| 0 <= i < k && s[i].pictographic && forall m :: i < m < k ==> s[m].gcb.Extend?;
      assert forall m :: i < m < k + 1 ==> s[m].gcb.Extend?;
    }
    if BarePictographBefore(s, k + 1) && !s[k].pictographic {
      var i :| 0 <= i < k + 1 && s[i].pictographic && forall m :: i < m < k + 1 ==> s[m].gcb.Extend?;
      assert s[i].pictographic && s[k].gcb.Extend?;
    }
  }

  lemma JoinerStep(s: Text, k: nat)
    requires k < |s|
    ensures PictographBefore(s, k + 1) <==> BarePictographBefore(s, k) && s[k].gcb.ZWJ?
  {
    if BarePictographBefore(s, k) && s[k].gcb.ZWJ? {
      var i :| 0 <= i < k && s[i].pictographic && forall m :: i < m < k ==> s[m].gcb.Extend?;
      assert 0 <= i < (k + 1) - 1 && s[i].pictographic;
    }
    if PictographBefore(s, k + 1) {
      var i :| 0 <= i < k && s[i].pictographic && s[k].gcb.ZWJ? && forall m :: i < m < k ==> s[m].gcb.Extend?;
      assert s[i].pictographic;
    }
  }

  // ----- the scan -----

  /** What one character and the states behind it decide. */
  predicate Breaks(p: Properties, next: Properties, odd: bool, conjunct: Conjunct, pictograph: Pictograph) {
    if p.gcb.CR? && next.gcb.LF? then false
    else if p.gcb.Control? || p.gcb.CR? || p.gcb.LF? then true
    else if next.gcb.Control? || next.gcb.CR? || next.gcb.LF? then true
    else if p.gcb.L? && (next.gcb.L? || next.gcb.V? || next.gcb.LV? || next.gcb.LVT?) then false
    else if (p.gcb.LV? || p.gcb.V?) && (next.gcb.V? || next.gcb.T?) then false
    else if (p.gcb.LVT? || p.gcb.T?) && next.gcb.T? then false
    else if next.gcb.Extend? || next.gcb.ZWJ? then false
    else if next.gcb.SpacingMark? then false
    else if p.gcb.Prepend? then false
    else if conjunct.AfterLinker? && next.incb.Consonant? then false
    else if pictograph.AfterJoiner? && next.pictographic then false
    else if next.gcb.RegionalIndicator? && odd then false
    else true
  }

  /** The rules, with a joiner that is itself a pictograph opening a sequence instead of joining one. */
  ghost predicate ScannedBoundary(s: Text, k: nat)
    requires 0 < k < |s|
  {
    Boundary(s, k) || (s[k - 1].pictographic && BoundaryWithoutJoiner(s, k))
  }

  /** The rules without GB11. */
  ghost predicate BoundaryWithoutJoiner(s: Text, k: nat)
    requires 0 < k < |s|
  {
    var p, next := s[k - 1], s[k];
    if p.gcb.CR? && next.gcb.LF? then false
    else if IsControl(p.gcb) || IsControl(next.gcb) then true
    else
      !( || Hangul(p.gcb, next.gcb)
         || Attaches(p.gcb, next.gcb)
         || (ConjunctBefore(s, k) && next.incb.Consonant?)
         || (next.gcb.RegionalIndicator? && IndicatorsBefore(s, k) % 2 == 1))
  }

  lemma StatesDecide(s: Text, k: nat, odd: bool, conjunct: Conjunct, pictograph: Pictograph)
    requires 0 < k < |s|
    requires odd <==> IndicatorsBefore(s, k) % 2 == 1
    requires ConjunctMeans(conjunct, s, k) && PictographMeans(pictograph, s, k)
    ensures Breaks(s[k - 1], s[k], odd, conjunct, pictograph) <==> ScannedBoundary(s, k)
  {
  }

  /** `gb_breaks`: whether a cluster begins before each character, and the end of the text (GB1, GB2). */
  method FindBreaks(s: Text) returns (breaks: seq<bool>)
    ensures |breaks| == if s == [] then 2 else |s| + 1
    ensures breaks[0] && breaks[|breaks| - 1]
    ensures forall k :: 0 < k < |s| ==> breaks[k] == ScannedBoundary(s, k)
    ensures (forall k :: 0 < k < |s| ==> breaks[k] == Boundary(s, k)) <==>
      forall k :: 0 < k < |s| ==> !JoinerTaken(s, k)
  {
    hide ConjunctMeans, PictographMeans, Breaks, Boundary, ScannedBoundary, JoinerTaken;
    breaks := [true];
    var odd, conjunct, pictograph := false, NoConjunct, NoPictograph;
    NothingBefore(s);
    var k := 0;
    while k < |s|
      invariant k <= |s| && |breaks| == if k == 0 then 1 else k
      invariant breaks[0] && forall j :: 0 < j < k ==> breaks[j] == ScannedBoundary(s, j)
      invariant odd <==> IndicatorsBefore(s, k) % 2 == 1
      invariant ConjunctMeans(conjunct, s, k) && PictographMeans(pictograph, s, k)
    {
      var next, brk := s[k], true;
      if k > 0 {
        StatesDecide(s, k, odd, conjunct, pictograph);
        brk := Breaks(s[k - 1], next, odd, conjunct, pictograph);
        breaks := breaks + [brk];
        OddNeverBreaks(s, k, odd, conjunct, pictograph);
      }
      ConjunctStep(conjunct, s, k);
      PictographStep(pictograph, s, k);
      odd := if next.gcb.RegionalIndicator? && !brk then !odd else next.gcb.RegionalIndicator?;
      conjunct := NextConjunct(conjunct, next.incb);
      pictograph := NextPictograph(pictograph, next);
      k := k + 1;
    }
    breaks := breaks + [true];
    forall j | 0 < j < |s|
      ensures breaks[j] == Boundary(s, j) <==> !JoinerTaken(s, j)
    {
      ScanParts(s, j);
    }
  }

  lemma NothingBefore(s: Text)
    ensures IndicatorsBefore(s, 0) == 0 && ConjunctMeans(NoConjunct, s, 0) && PictographMeans(NoPictograph, s, 0)
  {
  }

  /** An indicator behind an odd run never opens a cluster: that is why one bit is enough. */
  lemma OddNeverBreaks(s: Text, k: nat, odd: bool, conjunct: Conjunct, pictograph: Pictograph)
    requires 0 < k < |s| && (odd <==> IndicatorsBefore(s, k) % 2 == 1)
    ensures odd && s[k].gcb.RegionalIndicator? ==> !Breaks(s[k - 1], s[k], odd, conjunct, pictograph)
  {
  }

  /** The joiner in front of `k` is itself a pictograph, and GB11 is all that would keep the pictograph
      behind it: the scan takes the joiner for the sequence's beginning. */
  ghost predicate JoinerTaken(s: Text, k: nat)
    requires 0 < k < |s|
  {
    var joiner, next := s[k - 1], s[k];
    && joiner.gcb.ZWJ? && joiner.pictographic && BarePictographBefore(s, k - 1)
    && next.pictographic && !IsControl(next.gcb) && !Attaches(joiner.gcb, next.gcb)
    && !(ConjunctBefore(s, k) && next.incb.Consonant?)
  }

  lemma ScanParts(s: Text, k: nat)
    requires 0 < k < |s|
    ensures ScannedBoundary(s, k) == Boundary(s, k) <==> !JoinerTaken(s, k)
  {
    JoinerStep(s, k - 1);
    assert s[k - 1].gcb.ZWJ? ==> IndicatorsBefore(s, k) == 0;
  }

  /** Such a text: three pictographs, the second a joiner. */
  lemma PictographicJoiner() returns (s: Text)
    ensures |s| == 3 && ScannedBoundary(s, 2) && !Boundary(s, 2)
  {
    s := [Properties(Other, NotConjunct, true), Properties(ZWJ, NotConjunct, true),
        Properties(Other, NotConjunct, true)];
    assert s[0].pictographic && s[1].gcb.ZWJ?;
    assert PictographBefore(s, 2);
    assert !ConjunctBefore(s, 2);
    assert IndicatorsBefore(s, 2) == 0;
  }
}
