/** Keys as bytes, and the sorted tables that bind sequences of them (keymap.h, keymap.cpp). */
module Keymaps {
  import opened Wrappers
  import opened Utf8
  import opened Decoder

  // ----- keys as bytes -----

  datatype Key = Code(codepoint: nat, modifiers: Modifiers) | Name(key: NamedKey, modifiers: Modifiers)

  const KEY_SIZE := 6

  const LAST_NAMED := 22

  function NumberOf(key: NamedKey): (n: nat)
    ensures n <= LAST_NAMED
  {
    match key
    case Backspace => 0
    case Left => 1
    case Right => 2
    case Home => 3
    case End => 4
    case Up => 5
    case Down => 6
    case PageUp => 7
    case PageDown => 8
    case Insert => 9
    case DeleteForward => 10
    case F1 => 11
    case F2 => 12
    case F3 => 13
    case F4 => 14
    case F5 => 15
    case F6 => 16
    case F7 => 17
    case F8 => 18
    case F9 => 19
    case F10 => 20
    case F11 => 21
    case F12 => 22
  }

  function NamedOf(n: nat): NamedKey
    requires n <= LAST_NAMED
  {
    match n
    case 0 => Backspace
    case 1 => Left
    case 2 => Right
    case 3 => Home
    case 4 => End
    case 5 => Up
    case 6 => Down
    case 7 => PageUp
    case 8 => PageDown
    case 9 => Insert
    case 10 => DeleteForward
    case 11 => F1
    case 12 => F2
    case 13 => F3
    case 14 => F4
    case 15 => F5
    case 16 => F6
    case 17 => F7
    case 18 => F8
    case 19 => F9
    case 20 => F10
    case 21 => F11
    case _ => F12
  }

  function Bits(m: Modifiers): Byte {
    (if m.shift then 1 else 0) + (if m.alt then 2 else 0) + (if m.ctrl then 4 else 0)
  }

  function ModifiersOf(bits: nat): Modifiers {
    Modifiers(bits % 2 == 1, bits / 2 % 2 == 1, bits / 4 % 2 == 1)
  }

  /** The low `n` bytes of a number, the highest first. */
  function BigEndian(value: nat, n: nat): (s: Bytes)
    ensures |s| == n
  {
    if n == 0 then [] else BigEndian(value / 0x100, n - 1) + [value % 0x100]
  }

  function FromBytes(s: Bytes): nat {
    if s == [] then 0 else FromBytes(s[..|s| - 1]) * 0x100 + s[|s| - 1]
  }

  function Limit(n: nat): nat {
    if n == 0 then 1 else Limit(n - 1) * 0x100
  }

  lemma {:induction false} BytesRead(value: nat, n: nat)
    requires value < Limit(n)
    ensures FromBytes(BigEndian(value, n)) == value
  {
    if n > 0 {
      var s, high, low := BigEndian(value, n), value / 0x100, value % 0x100;
      assert value == high * 0x100 + low;
      assert high < Limit(n - 1);
      BytesRead(high, n - 1);
      assert s[..n - 1] == BigEndian(high, n - 1) && s[n - 1] == low;
      assert FromBytes(s) == FromBytes(s[..n - 1]) * 0x100 + s[n - 1];
    }
  }

  /** `encode_key`: kind, modifiers, and the value big-endian, so that byte order is numeric order. */
  function EncodeKey(k: Key): (s: Bytes)
    ensures |s| == KEY_SIZE
  {
    var kind: Byte, value: nat := if k.Code? then 1 else 2, if k.Code? then k.codepoint else NumberOf(k.key);
    [kind, Bits(k.modifiers)] + BigEndian(value, 4)
  }

  /** `decode_key`, from the front. */
  function DecodeKey(encoded: Bytes): Option<Key> {
    if |encoded| < KEY_SIZE || (encoded[0] != 1 && encoded[0] != 2) then None
    else
      var value := FromBytes(encoded[2..KEY_SIZE]);
      if encoded[0] == 2 then
        if value > LAST_NAMED then None else Some(Name(NamedOf(value), ModifiersOf(encoded[1])))
      else Some(Code(value, ModifiersOf(encoded[1])))
  }

  /** Thirty-two bits. */
  predicate Fits(k: Key) {
    k.Code? ==> k.codepoint < 0x1_0000_0000
  }

  lemma KeyDecodes(k: Key, rest: Bytes)
    requires Fits(k)
    ensures DecodeKey(EncodeKey(k) + rest) == Some(k)
  {
    hide BigEndian, FromBytes;
    var value := if k.Code? then k.codepoint else NumberOf(k.key);
    assert Limit(4) == 0x1_0000_0000;
    BytesRead(value, 4);
    var encoded := EncodeKey(k) + rest;
    assert encoded[2..KEY_SIZE] == BigEndian(value, 4);
    assert ModifiersOf(Bits(k.modifiers)) == k.modifiers;
  }

  function EncodeKeys(keys: seq<Key>): Bytes {
    if keys == [] then [] else EncodeKey(keys[0]) + EncodeKeys(keys[1..])
  }

  /** The keys of an encoding, as far as it decodes. */
  function DecodeKeys(encoded: Bytes): seq<Key> {
    var key := DecodeKey(encoded);
    if key.None? then [] else [key.value] + DecodeKeys(encoded[KEY_SIZE..])
  }

  lemma NothingDecodes()
    ensures DecodeKey([]).None?
  {
  }

  lemma {:induction false} KeysDecode(keys: seq<Key>)
    requires AllFit(keys)
    ensures DecodeKeys(EncodeKeys(keys)) == keys
  {
    hide EncodeKey, DecodeKey, Fits;
    NothingDecodes();
    if keys != [] {
      KeyDecodes(keys[0], EncodeKeys(keys[1..]));
      assert EncodeKeys(keys)[KEY_SIZE..] == EncodeKeys(keys[1..]);
      KeysDecode(keys[1..]);
    }
  }

  ghost predicate AllFit(keys: seq<Key>) {
    forall i :: 0 <= i < |keys| ==> Fits(keys[i])
  }

  /** One encoding extends another exactly when the keys do. */
  lemma {:induction false} EncodingExtends(a: seq<Key>, b: seq<Key>)
    requires AllFit(a) && AllFit(b)
    ensures EncodeKeys(a) <= EncodeKeys(b) <==> a <= b
    ensures |EncodeKeys(a)| == KEY_SIZE * |a|
    decreases |a|
  {
    if a != [] {
      EncodingExtends(a[1..], if b == [] then [] else b[1..]);
      if b == [] {
        assert |EncodeKeys(a)| > 0;
      } else {
        var ea, eb := EncodeKeys(a), EncodeKeys(b);
        var ta, tb := EncodeKeys(a[1..]), EncodeKeys(b[1..]);
        if ea <= eb {
          assert eb[..KEY_SIZE] == ea[..KEY_SIZE] == EncodeKey(a[0]) == EncodeKey(b[0]);
          KeyDecodes(a[0], []);
          KeyDecodes(b[0], []);
          assert ta == ea[KEY_SIZE..] && tb == eb[KEY_SIZE..];
          assert tb[..|ta|] == ta;
          assert a == [a[0]] + a[1..] && b == [b[0]] + b[1..];
        }
        if a <= b {
          assert b[..|a|] == a;
          assert a[0] == b[0] && a[1..] == b[1..][..|a| - 1];
          assert EncodeKey(b[0]) + tb[..|ta|] == (EncodeKey(b[0]) + tb)[..KEY_SIZE + |ta|];
        }
      }
    }
  }

  // ----- the table -----

  datatype Entry = Entry(keys: Bytes, action: string)

  /** `operator<` of two strings. */
  predicate Less(a: Bytes, b: Bytes) {
    if b == [] then false
    else if a == [] then true
    else if a[0] != b[0] then a[0] < b[0]
    else Less(a[1..], b[1..])
  }

  lemma {:induction false} LessTransitive(a: Bytes, b: Bytes, c: Bytes)
    requires Less(a, b) && Less(b, c)
    ensures Less(a, c)
    decreases |a|
  {
    if a != [] && a[0] == b[0] && b[0] == c[0] {
      LessTransitive(a[1..], b[1..], c[1..]);
    }
  }

  lemma {:induction false} LessTotal(a: Bytes, b: Bytes)
    ensures Less(a, b) || a == b || Less(b, a)
    ensures !(Less(a, b) && Less(b, a)) && !Less(a, a)
    decreases |a|
  {
    if a != [] && b != [] && a[0] == b[0] {
      LessTotal(a[1..], b[1..]);
      assert a == [a[0]] + a[1..] && b == [b[0]] + b[1..];
    }
    if a != [] {
      LessTotal(a[1..], a[1..]);
    }
  }

  /** What extends a string comes after it. */
  lemma {:induction false} ExtensionIsGreater(a: Bytes, b: Bytes)
    requires a < b
    ensures Less(a, b)
    decreases |a|
  {
    if a != [] {
      assert a[1..] == b[1..][..|a| - 1];
      ExtensionIsGreater(a[1..], b[1..]);
    }
  }

  /** The extensions of a string are one run directly behind it: past one that is none, there are no more. */
  lemma {:induction false} ExtensionsAreOneRun(k: Bytes, e: Bytes, f: Bytes)
    requires Less(k, e) && Less(e, f) && k <= f
    ensures k <= e
    decreases |k|
  {
    if k != [] {
      if e[0] == k[0] {
        assert f[0] == k[0] && k[1..] == f[1..][..|k| - 1];
        ExtensionsAreOneRun(k[1..], e[1..], f[1..]);
        assert k == [k[0]] + k[1..] && e == [e[0]] + e[1..];
        assert k[1..] == e[1..][..|k| - 1];
      }
    }
  }

  ghost predicate Sorted(entries: seq<Entry>) {
    forall i, j :: 0 <= i < j < |entries| ==> Less(entries[i].keys, entries[j].keys)
  }

  /** What the table binds. */
  ghost predicate Binds(entries: seq<Entry>, keys: Bytes, action: string) {
    exists i :: 0 <= i < |entries| && entries[i] == Entry(keys, action)
  }

  ghost predicate Bound(entries: seq<Entry>, keys: Bytes) {
    exists i :: 0 <= i < |entries| && entries[i].keys == keys
  }

  lemma BoundOnce(entries: seq<Entry>, i: nat, j: nat)
    requires Sorted(entries) && i < |entries| && j < |entries| && entries[i].keys == entries[j].keys
    ensures i == j
  {
    LessTotal(entries[i].keys, entries[i].keys);
  }

  /** `std::lower_bound`. */
  method LowerBound(entries: seq<Entry>, keys: Bytes) returns (at: nat)
    requires Sorted(entries)
    ensures at <= |entries|
    ensures forall i :: 0 <= i < at ==> Less(entries[i].keys, keys)
    ensures forall i :: at <= i < |entries| ==> !Less(entries[i].keys, keys)
  {
    hide Less;
    at := 0;
    var end := |entries|;
    while at < end
      invariant at <= end <= |entries|
      invariant forall i :: 0 <= i < at ==> Less(entries[i].keys, keys)
      invariant forall i :: end <= i < |entries| ==> !Less(entries[i].keys, keys)
    {
      var middle := (at + end) / 2;
      if Less(entries[middle].keys, keys) {
        forall i | 0 <= i <= middle
          ensures Less(entries[i].keys, keys)
        {
          if i < middle { LessTransitive(entries[i].keys, entries[middle].keys, keys); }
        }
        at := middle + 1;
      } else {
        forall i | middle <= i < |entries|
          ensures !Less(entries[i].keys, keys)
        {
          if i > middle && Less(entries[i].keys, keys) {
            LessTransitive(entries[middle].keys, entries[i].keys, keys);
          }
        }
        end := middle;
      }
    }
  }

  /** The keys are bound at the lower bound or nowhere. */
  lemma BoundAt(entries: seq<Entry>, keys: Bytes, at: nat)
    requires Sorted(entries) && at <= |entries|
    requires forall i :: 0 <= i < at ==> Less(entries[i].keys, keys)
    requires forall i :: at <= i < |entries| ==> !Less(entries[i].keys, keys)
    ensures Bound(entries, keys) <==> at < |entries| && entries[at].keys == keys
    ensures !Bound(entries, keys) ==> forall i :: at <= i < |entries| ==> Less(keys, entries[i].keys)
    ensures Bound(entries, keys) ==> forall i :: at < i < |entries| ==> Less(keys, entries[i].keys)
  {
    hide Less;
    LessTotal(keys, keys);
    if Bound(entries, keys) {
      var i :| 0 <= i < |entries| && entries[i].keys == keys;
      assert forall j :: at < j < |entries| ==> Less(entries[at].keys, entries[j].keys);
    } else {
      forall i | at <= i < |entries|
        ensures Less(keys, entries[i].keys)
      {
        LessTotal(keys, entries[i].keys);
      }
    }
  }

  method ActionFor(entries: seq<Entry>, keys: Bytes) returns (action: Option<string>)
    requires Sorted(entries)
    ensures action.Some? <==> Bound(entries, keys)
    ensures action.Some? ==> Binds(entries, keys, action.value)
  {
    hide Less;
    var at := LowerBound(entries, keys);
    BoundAt(entries, keys, at);
    if at == |entries| || entries[at].keys != keys {
      return None;
    }
    assert entries[at] == Entry(keys, entries[at].action);
    return Some(entries[at].action);
  }

  /** Something bound strictly extends the keys. */
  ghost predicate Longer(entries: seq<Entry>, keys: Bytes) {
    exists i :: 0 <= i < |entries| && keys < entries[i].keys
  }

  /** One look past the lower bound answers for the whole table. */
  method HasLonger(entries: seq<Entry>, keys: Bytes) returns (longer: bool)
    requires Sorted(entries)
    ensures longer <==> Longer(entries, keys)
  {
    hide Less;
    var at := LowerBound(entries, keys);
    BoundAt(entries, keys, at);
    if at < |entries| && entries[at].keys == keys {
      at := at + 1;
    }
    longer := at < |entries| && keys <= entries[at].keys;
    if Longer(entries, keys) {
      var i :| 0 <= i < |entries| && keys < entries[i].keys;
      ExtensionIsGreater(keys, entries[i].keys);
      LessTotal(keys, entries[i].keys);
      if i > at {
        ExtensionsAreOneRun(keys, entries[at].keys, entries[i].keys);
      }
    }
    if longer {
      LessTotal(keys, keys);
      assert Less(keys, entries[at].keys) && keys != entries[at].keys;
      assert keys < entries[at].keys;
    }
  }

  class Keymap {
    var entries: seq<Entry>
    var stopsLookup: bool
    var defaultAction: string

    constructor ()
      ensures entries == [] && Valid() && !stopsLookup && defaultAction == ""
    {
      entries, stopsLookup, defaultAction := [], false, "";
    }

    ghost predicate Valid()
      reads this
    {
      Sorted(entries) && forall i :: 0 <= i < |entries| ==> entries[i].keys != [] && entries[i].action != ""
    }

    /** Binds, rebinds, or with no action unbinds; nothing else in the table changes. */
    method Bind(keys: Bytes, action: string)
      requires Valid()
      modifies this`entries
      ensures Valid()
      ensures forall k, a :: Binds(entries, k, a) <==>
        if k == keys && k != [] then a == action && action != "" else Binds(old(entries), k, a)
    {
      hide Less;
      if keys == [] {
        return;
      }
      ghost var was := entries;
      var at := LowerBound(entries, keys);
      BoundAt(entries, keys, at);
      if at < |entries| && entries[at].keys == keys {
        if action == "" {
          entries := entries[..at] + entries[at + 1..];
          RemovedBinds(was, at);
        } else {
          entries := entries[at := Entry(keys, action)];
          ReboundBinds(was, at, action);
        }
        return;
      }
      if action != "" {
        entries := entries[..at] + [Entry(keys, action)] + entries[at..];
        InsertedBinds(was, at, Entry(keys, action));
      } else {
        NotBound(was, keys);
      }
    }

    method Unbind(keys: Bytes) returns (found: bool)
      requires Valid()
      modifies this`entries
      ensures Valid() && (found <==> old(Bound(entries, keys)))
      ensures forall k, a :: Binds(entries, k, a) <==> k != keys && Binds(old(entries), k, a)
    {
      hide Less;
      ghost var was := entries;
      var at := LowerBound(entries, keys);
      BoundAt(entries, keys, at);
      if at == |entries| || entries[at].keys != keys {
        NotBound(was, keys);
        return false;
      }
      entries := entries[..at] + entries[at + 1..];
      RemovedBinds(was, at);
      return true;
    }
  }

  lemma NotBound(entries: seq<Entry>, keys: Bytes)
    requires !Bound(entries, keys)
    ensures forall a :: !Binds(entries, keys, a)
  {
  }

  lemma RemovedBinds(was: seq<Entry>, at: nat)
    requires Sorted(was) && at < |was|
    ensures var now := was[..at] + was[at + 1..];
      Sorted(now) && forall k, a :: Binds(now, k, a) <==> k != was[at].keys && Binds(was, k, a)
  {
    hide Less;
    var now := was[..at] + was[at + 1..];
    forall k, a
      ensures Binds(now, k, a) <==> k != was[at].keys && Binds(was, k, a)
    {
      if Binds(now, k, a) {
        var i :| 0 <= i < |now| && now[i] == Entry(k, a);
        var j := if i < at then i else i + 1;
        assert was[j] == Entry(k, a);
        if k == was[at].keys { BoundOnce(was, j, at); }
      }
      if Binds(was, k, a) && k != was[at].keys {
        var j :| 0 <= j < |was| && was[j] == Entry(k, a);
        assert now[if j < at then j else j - 1] == Entry(k, a);
      }
    }
  }

  lemma ReboundBinds(was: seq<Entry>, at: nat, action: string)
    requires Sorted(was) && at < |was|
    ensures var keys := was[at].keys; var now := was[at := Entry(keys, action)];
      Sorted(now) && forall k, a :: Binds(now, k, a) <==> if k == keys then a == action else Binds(was, k, a)
  {
    hide Less;
    var keys := was[at].keys;
    var now := was[at := Entry(keys, action)];
    forall k, a
      ensures Binds(now, k, a) <==> if k == keys then a == action else Binds(was, k, a)
    {
      assert now[at] == Entry(keys, action);
      if Binds(now, k, a) {
        var i :| 0 <= i < |now| && now[i] == Entry(k, a);
        if k == keys { BoundOnce(was, i, at); } else { assert was[i] == Entry(k, a); }
      }
      if k != keys && Binds(was, k, a) {
        var i :| 0 <= i < |was| && was[i] == Entry(k, a);
        assert now[i] == Entry(k, a);
      }
    }
  }

  lemma InsertedBinds(was: seq<Entry>, at: nat, e: Entry)
    requires Sorted(was) && at <= |was| && !Bound(was, e.keys)
    requires forall i :: 0 <= i < at ==> Less(was[i].keys, e.keys)
    requires forall i :: at <= i < |was| ==> Less(e.keys, was[i].keys)
    ensures var now := was[..at] + [e] + was[at..];
      Sorted(now) && forall k, a :: Binds(now, k, a) <==> if k == e.keys then a == e.action else Binds(was, k, a)
  {
    hide Less;
    var now := was[..at] + [e] + was[at..];
    forall k, a
      ensures Binds(now, k, a) <==> if k == e.keys then a == e.action else Binds(was, k, a)
    {
      assert now[at] == Entry(e.keys, e.action);
      if Binds(now, k, a) {
        var i :| 0 <= i < |now| && now[i] == Entry(k, a);
        if i != at { assert was[if i < at then i else i - 1] == Entry(k, a); }
      }
      if Binds(was, k, a) {
        var i :| 0 <= i < |was| && was[i] == Entry(k, a);
        assert now[if i < at then i else i + 1] == Entry(k, a);
      }
    }
  }
}
