/** When typing is one undo step (undo.h, registry.cpp). */
module Typing {
  import opened Wrappers
  import opened Utf8
  import opened History
  import opened Editing
  import opened Committing

  // A keystroke is committed as whatever difference explains the new text, and that may begin behind the
  // cursor: in front of `a`, typing `a` is adding one behind it. In front of a character that only begins
  // like the key, it begins in the middle of that character, and what is inserted is no longer the key.

  /** The length of what two texts begin with. */
  function Alike(a: Bytes, b: Bytes): (n: nat)
    ensures n <= |a| && n <= |b| && a[..n] == b[..n]
    ensures n < |a| && n < |b| ==> a[n] != b[n]
  {
    if a == [] || b == [] || a[0] != b[0] then 0 else 1 + Alike(a[1..], b[1..])
  }

  /** The text with a keystroke put in at p. */
  function Typed(text: Bytes, p: nat, key: Bytes): Bytes
    requires p <= |text|
  {
    text[..p] + key + text[p..]
  }

  /** How far behind the cursor the difference begins: as far as the text there begins like the text with
      the key. */
  function Slide(text: Bytes, p: nat, key: Bytes): nat
    requires p <= |text|
  {
    Alike(text[p..], key + text[p..])
  }

  /** The bytes of a key, begun n bytes on. */
  function Rotated(key: Bytes, n: nat): (r: Bytes)
    requires key != []
    ensures |r| == |key|
  {
    key[n % |key|..] + key[..n % |key|]
  }

  /** A keystroke is always committed as an insertion as long as itself: of its own bytes, begun as far on as
      it slides. */
  lemma KeystrokeDiffers(text: Bytes, p: nat, key: Bytes, d: Difference)
    requires p <= |text| && key != [] && Explains(d, text, Typed(text, p, key))
    ensures d.any && d.from == d.to == p + Slide(text, p, key)
    ensures d.inserted == Rotated(key, Slide(text, p, key))
  {
    hide Explains, Alike, Rotated;
    var now, rest := Typed(text, p, key), text[p..];
    Parts(d, text, now);
    assert |now| == |text| + |key| && now[p..] == key + rest;
    SlidesFrom(text, p, key, d);
    var n := Slide(text, p, key);
    assert text[p + n..] == rest[n..];
    assert now[p + n + |key|..] == rest[n..];
    SuffixIsLongest(d, text, now, |text| - d.from);
    assert d.inserted == (key + rest)[n..n + |key|];
    InsertedIsRotated(key, rest, n);
  }

  /** As far as a text begins like itself behind a key, it is the key over and over. */
  lemma {:induction false} KeyRepeats(key: Bytes, rest: Bytes, n: nat, j: nat)
    requires key != [] && n <= |rest| && rest[..n] == (key + rest)[..n] && j < n + |key|
    ensures (key + rest)[j] == key[j % |key|]
    decreases j
  {
    if j >= |key| {
      var i := j - |key|;
      assert rest[i] == rest[..n][i] == (key + rest)[..n][i] == (key + rest)[i];
      KeyRepeats(key, rest, n, i);
      Turned(i, |key|);
    } else {
      assert j % |key| == j;
    }
  }

  lemma Turned(i: nat, size: nat)
    requires 0 < size
    ensures (i + size) % size == i % size
  {
    var q := i / size;
    assert i + size == (q + 1) * size + i % size;
    SameRest(i + size, q + 1, i % size, size);
  }

  lemma SameRest(a: nat, q: nat, r: nat, size: nat)
    requires 0 < size && a == q * size + r && r < size
    ensures a % size == r
  {
    var q', r' := a / size, a % size;
    assert a == q' * size + r';
    if q != q' {
      Apart(q, q', size);
    }
  }

  lemma Apart(q: nat, other: nat, size: nat)
    requires q != other
    ensures q * size >= other * size + size || other * size >= q * size + size
  {
    var less, more := if q < other then q else other, if q < other then other else q;
    var k := more - less - 1;
    assert more * size == less * size + size + k * size;
  }

  lemma InsertedIsRotated(key: Bytes, rest: Bytes, n: nat)
    requires key != [] && n <= |rest| && rest[..n] == (key + rest)[..n]
    ensures (key + rest)[n..n + |key|] == Rotated(key, n)
  {
    var inserted := (key + rest)[n..n + |key|];
    forall i | 0 <= i < |key|
      ensures inserted[i] == Rotated(key, n)[i]
    {
      KeyRepeats(key, rest, n, n + i);
      RotatedAt(key, n, i);
    }
  }

  lemma RotatedAt(key: Bytes, n: nat, i: nat)
    requires i < |key|
    ensures Rotated(key, n)[i] == key[(n + i) % |key|]
  {
    var size, r := |key|, n % |key|;
    assert n == n / size * size + r;
    if r + i < size {
      SameRest(n + i, n / size, r + i, size);
    } else {
      assert n + i == (n / size + 1) * size + (r + i - size);
      SameRest(n + i, n / size + 1, r + i - size, size);
    }
  }

  lemma SlidesFrom(text: Bytes, p: nat, key: Bytes, d: Difference)
    requires p <= |text| && key != [] && Explains(d, text, Typed(text, p, key)) && d.any
    ensures d.from == p + Slide(text, p, key)
  {
    hide Explains, Alike;
    var now, rest := Typed(text, p, key), text[p..];
    var n := Slide(text, p, key);
    assert now[p..] == key + rest;
    AlikeBehind(text, now, p, n);
    PrefixIsLongest(d, text, now, p + n);
    Parts(d, text, now);
    BeginAlike(d, text, now);
    assert rest[..d.from - p] == text[..d.from][p..] && now[p..][..d.from - p] == now[..d.from][p..];
    AlikeIsLongest(rest, key + rest, d.from - p);
  }

  lemma AlikeBehind(a: Bytes, b: Bytes, p: nat, n: nat)
    requires p <= |a| && p <= |b| && a[..p] == b[..p]
    requires n <= |a| - p && n <= |b| - p && a[p..][..n] == b[p..][..n]
    ensures a[..p + n] == b[..p + n]
  {
    assert a[..p + n] == a[..p] + a[p..][..n] && b[..p + n] == b[..p] + b[p..][..n];
  }

  lemma {:induction false} AlikeIsLongest(a: Bytes, b: Bytes, k: nat)
    requires k <= |a| && k <= |b| && a[..k] == b[..k]
    ensures k <= Alike(a, b)
  {
    if k > 0 {
      assert a[0] == a[..k][0] && b[0] == b[..k][0];
      assert a[1..][..k - 1] == a[..k][1..] && b[1..][..k - 1] == b[..k][1..];
      AlikeIsLongest(a[1..], b[1..], k - 1);
    }
  }

  /** The front of a line that goes on like the key slides; its end never does. */
  lemma SlidesIff(text: Bytes, p: nat, key: Bytes)
    requires p <= |text| && key != []
    ensures Slide(text, p, key) == 0 <==> p == |text| || text[p] != key[0]
  {
  }

  // ----- two keystrokes -----

  /** What committing a keystroke with no group open makes of a session. */
  ghost predicate Commits(s: Session, t: Session, text: Bytes, p: nat, key: Bytes, d: Difference,
                          isCluster: Bytes -> bool)
    requires p <= |text|
  {
    var typed := IsTyped(d, key, isCluster);
    Explains(d, text, Typed(text, p, key)) && OneStep(s, t, d, typed) && t.coalescing == typed
  }

  /** A keystroke goes on a run of typing, or begins one: it is one cluster, and begun as far on as it slides
      it is itself. */
  predicate GoesOn(text: Bytes, p: nat, key: Bytes, isCluster: Bytes -> bool)
    requires p <= |text| && key != []
  {
    isCluster(key) && Rotated(key, Slide(text, p, key)) == key
  }

  lemma TypedIff(s: Session, t: Session, text: Bytes, p: nat, key: Bytes, d: Difference, isCluster: Bytes -> bool)
    requires p <= |text| && key != [] && Commits(s, t, text, p, key, d, isCluster)
    ensures IsTyped(d, key, isCluster) <==> GoesOn(text, p, key, isCluster)
    ensures t.coalescing == IsTyped(d, key, isCluster) && OneStep(s, t, d, IsTyped(d, key, isCluster))
    ensures d.from == d.to == p + Slide(text, p, key) && |d.inserted| == |key|
  {
    hide Explains, Slide, Rotated, OneStep;
    KeystrokeDiffers(text, p, key, d);
  }

  /** Two keystrokes, one behind the other, are one undo step if and only if each is typing where it comes
      to lie and both slide equally far; otherwise the second is a step of its own. */
  lemma KeystrokesJoin(s0: Session, s1: Session, s2: Session, text: Bytes, p: nat, a: Bytes, b: Bytes,
                       d1: Difference, d2: Difference, isCluster: Bytes -> bool)
    requires p <= |text| && a != [] && b != []
    requires Commits(s0, s1, text, p, a, d1, isCluster)
    requires Commits(s1, s2, Typed(text, p, a), p + |a|, b, d2, isCluster)
    ensures
      var one :=
        GoesOn(text, p, a, isCluster) && GoesOn(text, p, b, isCluster) && Slide(text, p, a) == Slide(text, p, b);
      s2.done == s1.done + if one then 0 else 1
  {
    hide Explains, Commits, GoesOn, IsTyped, Alike;
    var now := Typed(text, p, a);
    assert now[p + |a|..] == text[p..];
    assert Slide(now, p + |a|, b) == Slide(text, p, b);
    SameGoesOn(now, p + |a|, text, p, b, isCluster);
    TypedIff(s0, s1, text, p, a, d1, isCluster);
    TypedIff(s1, s2, now, p + |a|, b, d2, isCluster);
  }

  lemma SameGoesOn(text: Bytes, p: nat, other: Bytes, q: nat, key: Bytes, isCluster: Bytes -> bool)
    requires p <= |text| && q <= |other| && key != [] && Slide(text, p, key) == Slide(other, q, key)
    ensures GoesOn(text, p, key, isCluster) == GoesOn(other, q, key, isCluster)
  {
    hide Slide;
  }

  /** For keys that are one character each: neither slides, or it is twice the same character in front of
      nothing but more of it, up to where the text goes on with no part of it. */
  lemma CharactersJoin(text: Bytes, p: nat, c: Scalar, d: Scalar, isCluster: Bytes -> bool)
    requires p <= |text| && isCluster(Encode(c)) && isCluster(Encode(d))
    ensures var a, b := Encode(c), Encode(d);
      var m, n := Slide(text, p, a), Slide(text, p, b);
      (GoesOn(text, p, a, isCluster) && GoesOn(text, p, b, isCluster) && m == n) <==>
        (m == 0 && n == 0) || (c == d && m % |a| == 0)
  {
    hide Encode, Alike;
    var a, b, rest := Encode(c), Encode(d), text[p..];
    var m, n := Slide(text, p, a), Slide(text, p, b);
    RotatedCharacter(c, m);
    RotatedCharacter(d, n);
    WholeSlides(rest, a, m);
    WholeSlides(rest, b, n);
    if m == n && 0 < m && m % |a| == 0 && n % |b| == 0 {
      assert rest == a + rest[|a|..] && rest == b + rest[|b|..];
      ScanEncoded(c, rest[|a|..]);
      ScanEncoded(d, rest[|b|..]);
    }
  }

  /** A character begun further on begins with a byte that begins none. */
  lemma RotatedCharacter(c: Scalar, n: nat)
    ensures Rotated(Encode(c), n) == Encode(c) <==> n % |Encode(c)| == 0
  {
    hide High, Low;
    var key := Encode(c);
    var r := n % |key|;
    assert Rotated(key, n)[0] == key[r];
    assert forall i :: 1 <= i < |key| ==> 0x80 <= key[i] < 0xC0;
    assert key[0] < 0x80 || 0xC0 <= key[0];
    if r == 0 {
      assert key[0..] + key[..0] == key;
    }
  }

  /** What slides by whole keys is in front of one. */
  lemma WholeSlides(rest: Bytes, key: Bytes, n: nat)
    requires key != [] && n == Alike(rest, key + rest)
    ensures 0 < n && n % |key| == 0 ==> |key| <= n && rest == key + rest[|key|..]
  {
    hide Alike;
    if n < |key| {
      SameRest(n, 0, n, |key|);
    } else {
      assert rest[..|key|] == rest[..n][..|key|];
      assert (key + rest)[..n][..|key|] == key;
    }
  }

  // ----- what breaks a run -----

  /** Two letters in front of a line that begins with the first: two steps. */
  lemma TwoSteps(s0: Session, s1: Session, s2: Session, d1: Difference, d2: Difference, isCluster: Bytes -> bool)
    requires Commits(s0, s1, [0x61], 0, [0x61], d1, isCluster)
    requires Commits(s1, s2, Typed([0x61], 0, [0x61]), 1, [0x62], d2, isCluster)
    ensures s2.done == s1.done + 1
  {
    hide Commits, GoesOn;
    assert Slide([0x61], 0, [0x61]) == 1 && Slide([0x61], 0, [0x62]) == 0;
    KeystrokesJoin(s0, s1, s2, [0x61], 0, [0x61], [0x62], d1, d2, isCluster);
  }

  /** Two letters in front of a third, which all begin with one byte: they slide equally far, into the middle
      of a character, and neither is typing any more. Two steps. */
  lemma HalfCharacters(s0: Session, s1: Session, s2: Session, d1: Difference, d2: Difference, isCluster: Bytes -> bool)
    requires Commits(s0, s1, [0xC3, 0xAA], 0, [0xC3, 0xA9], d1, isCluster)
    requires Commits(s1, s2, Typed([0xC3, 0xAA], 0, [0xC3, 0xA9]), 2, [0xC3, 0xA8], d2, isCluster)
    ensures Slide([0xC3, 0xAA], 0, [0xC3, 0xA9]) == Slide([0xC3, 0xAA], 0, [0xC3, 0xA8]) == 1
    ensures d1.inserted == [0xA9, 0xC3] && d2.inserted == [0xA8, 0xC3]
    ensures s2.done == s1.done + 1 && !s2.coalescing
  {
    hide Explains, IsTyped, OneStep, Slide;
    var text: Bytes, a: Bytes, b: Bytes := [0xC3, 0xAA], [0xC3, 0xA9], [0xC3, 0xA8];
    OneByteAlike(text, 0, a);
    OneByteAlike(text, 0, b);
    var now := Typed(text, 0, a);
    assert now[2..] == text;
    OneByteAlike(now, 2, b);
    assert Rotated(a, 1) == [0xA9, 0xC3] && Rotated(b, 1) == [0xA8, 0xC3];
    KeystrokeDiffers(text, 0, a, d1);
    KeystrokeDiffers(now, 2, b, d2);
    TypedIff(s1, s2, now, 2, b, d2, isCluster);
    KeystrokesJoin(s0, s1, s2, text, 0, a, b, d1, d2, isCluster);
  }

  lemma OneByteAlike(text: Bytes, p: nat, key: Bytes)
    requires p + 2 == |text| && |key| == 2 && text[p] == key[0] && text[p + 1] != key[1]
    ensures Slide(text, p, key) == 1
  {
    var rest := text[p..];
    assert rest[0] == (key + rest)[0] && rest[1..][0] == text[p + 1] && (key + rest)[1..][0] == key[1];
    assert Alike(rest[1..], (key + rest)[1..]) == 0;
  }

  // ----- as the editor commits them -----

  /** The same of two commits in a row, whatever was done before. */
  method TypeTwo(target: Editor, p: nat, a: Bytes, b: Bytes, isCluster: Bytes -> bool, snapBack: (Bytes, nat) -> nat)
    returns (one: bool)
    requires target.Valid() && target.depth == 0 && p <= |target.text| && a != [] && b != []
    requires forall text, at :: snapBack(text, at) <= |text|
    modifies target
    ensures target.Valid() && target.text == old(target.text)[..p] + a + b + old(target.text)[p..]
    ensures var text := old(target.text);
      one <==>
      GoesOn(text, p, a, isCluster) && GoesOn(text, p, b, isCluster) && Slide(text, p, a) == Slide(text, p, b)
  {
    hide Editor.Valid, Explains, OneStep, GoesOn, Slide, IsTyped;
    ghost var text, s0 := target.text, target.session;
    var now := target.text[..p] + a + target.text[p..];
    ActsOn(target);
    var changed, d1 := Commit(target, Staged(now, p + |a|, true, 0, false, false), a, isCluster, snapBack);
    ActsOn(target);
    ghost var s1 := target.session;
    var steps := |target.steps|;
    var last := now[..p + |a|] + b + now[p + |a|..];
    var changed', d2 := Commit(target, Staged(last, p + |a| + |b|, true, 0, false, false), b, isCluster, snapBack);
    ActsOn(target);
    one := |target.steps| == steps;
    assert now == Typed(text, p, a) && last == Typed(now, p + |a|, b);
    KeystrokesJoin(s0, s1, target.session, text, p, a, b, d1, d2, isCluster);
    assert last == text[..p] + a + b + text[p..];
  }

  /** A valid editor is what its session says. */
  lemma ActsOn(target: Editor)
    requires target.Valid()
    ensures target.session.done == |target.steps| && target.session.coalescing == target.coalescing
    ensures target.session.now.text == target.text
  {
    hide Sound, Stands;
  }
}
