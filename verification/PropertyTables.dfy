/** The tables the grapheme properties are read from (gen_unicode_tables.py): one packed record for every
    distinct tuple, behind a two-stage trie of shared blocks. */
module PropertyTables {
  /** `Stale` is what the generator reports and its caller catches. A slot that a byte cannot hold is an
      error of the language's, raised by the store, and caught nowhere. */
  datatype Result<T> = Ok(value: T) | Stale | NoByte(at: nat)

  type Byte = b: int | 0 <= b < 0x100

  const CODESPACE: nat := 0x110000
  const BLOCK_SIZE: nat := 128
  const REPLACEMENT: nat := 0xFFFD

  /** The properties of a codepoint, as the numbers of their values. */
  datatype Tuple = Tuple(gcb: nat, incb: nat, eaw: nat, pictographic: bool, presentation: bool)

  predicate InRange(t: Tuple) {
    t.gcb < 16 && t.incb < 4 && t.eaw < 8
  }

  function Pack(t: Tuple): nat {
    t.gcb + 0x10 * t.incb + 0x40 * t.eaw + (if t.pictographic then 0x200 else 0) + (if t.presentation then 0x400 else 0)
  }

  /** The accessors of the generated header. */
  function Unpack(record: nat): Tuple {
    Tuple(record % 0x10, record / 0x10 % 4, record / 0x40 % 8, record / 0x200 % 2 == 1, record / 0x400 % 2 == 1)
  }

  lemma UnpackPacked(t: Tuple)
    requires InRange(t)
    ensures Unpack(Pack(t)) == t
  {
    var flags := (if t.pictographic then 1 else 0) + (if t.presentation then 2 else 0);
    var r := Pack(t);
    assert r == t.gcb + 0x10 * (t.incb + 4 * (t.eaw + 8 * flags));
    Fields(r, t.gcb, t.incb, t.eaw, flags);
  }

  lemma Fields(r: nat, gcb: nat, incb: nat, eaw: nat, flags: nat)
    requires gcb < 16 && incb < 4 && eaw < 8 && flags < 4
    requires r == gcb + 0x10 * (incb + 4 * (eaw + 8 * flags))
    ensures r % 0x10 == gcb && r / 0x10 % 4 == incb && r / 0x40 % 8 == eaw
    ensures r / 0x200 % 2 == flags % 2 && r / 0x400 % 2 == flags / 2
  {
    assert r / 0x10 == incb + 4 * (eaw + 8 * flags);
    assert r / 0x40 == eaw + 8 * flags;
    assert r / 0x200 == flags;
    assert r / 0x400 == flags / 2;
  }

  /** Two stages and the records, as emitted. */
  datatype Tables = Tables(stage1: seq<nat>, stage2: seq<nat>, records: seq<nat>) {
    ghost predicate Valid() {
      && |stage1| == CODESPACE / BLOCK_SIZE
      && (forall b :: 0 <= b < |stage1| ==> (stage1[b] + 1) * BLOCK_SIZE <= |stage2|)
      && (forall i :: 0 <= i < |stage2| ==> stage2[i] < |records|)
    }

    /** `record`: two dependent loads, and U+FFFD for anything outside the codespace. */
    function Record(cp: nat): nat
      requires Valid()
    {
      var c := if cp >= CODESPACE then REPLACEMENT else cp;
      SlotInRange(c);
      records[stage2[stage1[c / BLOCK_SIZE] * BLOCK_SIZE + c % BLOCK_SIZE]]
    }

    lemma SlotInRange(c: nat)
      requires Valid() && c < CODESPACE
      ensures c / BLOCK_SIZE < |stage1| && stage1[c / BLOCK_SIZE] * BLOCK_SIZE + c % BLOCK_SIZE < |stage2|
    {
      var b := c / BLOCK_SIZE;
      assert (stage1[b] + 1) * BLOCK_SIZE <= |stage2|;
    }
  }

  /** The kinds of codepoint there are. */
  ghost function Kinds(tuples: seq<Tuple>): set<nat> {
    if tuples == [] then {} else Kinds(tuples[..|tuples| - 1]) + {Pack(tuples[|tuples| - 1])}
  }

  lemma {:induction false} KindsGrow(tuples: seq<Tuple>, n: nat)
    requires n <= |tuples|
    ensures Kinds(tuples[..n]) <= Kinds(tuples) && |Kinds(tuples[..n])| <= |Kinds(tuples)|
    decreases |tuples|
  {
    if n < |tuples| {
      var init := tuples[..|tuples| - 1];
      assert tuples[..n] == init[..n];
      KindsGrow(init, n);
      assert tuples[..|tuples|] == tuples;
      KindsStep(tuples, |tuples| - 1);
    } else {
      assert tuples[..n] == tuples;
    }
  }

  /** Records in the order they first occur, each once, and the slot of every codepoint's: exactly when
      there are no more kinds than a byte can tell apart. The 257th fails where its slot is stored, so the
      count behind the loop is never too large and never reported. */
  method BuildRecords(tuples: seq<Tuple>) returns (r: Result<(seq<nat>, seq<Byte>)>)
    ensures r.Ok? <==> |Kinds(tuples)| <= 256
    ensures r.Ok? ==>
      var (records, table) := r.value;
      && |records| == |Kinds(tuples)| && |table| == |tuples|
      && (forall cp :: 0 <= cp < |tuples| ==> table[cp] < |records| && records[table[cp]] == Pack(tuples[cp]))
      && (forall i, j :: 0 <= i < j < |records| ==> records[i] != records[j])
    ensures !r.Stale?
    ensures r.NoByte? ==> r.at < |tuples| && |Kinds(tuples[..r.at])| == 256 && |Kinds(tuples[..r.at + 1])| == 257
  {
    hide Pack, Kinds, Indexed, Stored;
    var records: seq<nat>, table: seq<Byte>, index: map<nat, nat> := [], [], map[];
    NothingIndexed(tuples);
    var cp := 0;
    while cp < |tuples|
      invariant cp <= |tuples| && |records| <= 256
      invariant Indexed(index, records) && index.Keys == Kinds(tuples[..cp]) && Stored(table, records, tuples[..cp])
    {
      var value := Pack(tuples[cp]);
      KindsStep(tuples, cp);
      ghost var known := records;
      if value !in index {
        AddIndexed(index, records, value);
        index := index[value := |records|];
        records := records + [value];
      }
      IndexedAt(index, records, value);
      var slot := index[value];
      if slot >= 0x100 {
        KindsGrow(tuples, cp + 1);
        return NoByte(cp);
      }
      StoreOne(table, known, records, tuples, cp, slot);
      table := table + [slot];
      cp := cp + 1;
    }
    assert tuples[..cp] == tuples;
    AllIndexed(index, records);
    StoredMeans(table, records, tuples);
    return if |records| > 256 then Stale else Ok((records, table));
  }

  /** Every record once, under its value. */
  ghost predicate Indexed(index: map<nat, nat>, records: seq<nat>) {
    && (forall v :: v in index ==> index[v] < |records| && records[index[v]] == v)
    && (forall i :: 0 <= i < |records| ==> records[i] in index && index[records[i]] == i)
    && |index.Keys| == |records|
  }

  /** Every codepoint's slot holds its record. */
  ghost predicate Stored(table: seq<Byte>, records: seq<nat>, tuples: seq<Tuple>) {
    |table| == |tuples| &&
    forall c :: 0 <= c < |table| ==> table[c] < |records| && records[table[c]] == Pack(tuples[c])
  }

  lemma StoredMeans(table: seq<Byte>, records: seq<nat>, tuples: seq<Tuple>)
    requires Stored(table, records, tuples)
    ensures |table| == |tuples|
    ensures forall c :: 0 <= c < |table| ==> table[c] < |records| && records[table[c]] == Pack(tuples[c])
  {
  }

  lemma StoreOne(table: seq<Byte>, known: seq<nat>, records: seq<nat>, tuples: seq<Tuple>, cp: nat, slot: Byte)
    requires cp < |tuples| && Stored(table, known, tuples[..cp]) && known <= records
    requires slot < |records| && records[slot] == Pack(tuples[cp])
    ensures Stored(table + [slot], records, tuples[..cp + 1])
  {
    hide Pack;
    assert forall c :: 0 <= c < |table| ==> (table + [slot])[c] == table[c] && tuples[..cp + 1][c] == tuples[..cp][c];
  }

  lemma NothingIndexed(tuples: seq<Tuple>)
    ensures Indexed(map[], []) && Kinds(tuples[..0]) == {} && Stored([], [], tuples[..0])
  {
  }

  lemma AddIndexed(index: map<nat, nat>, records: seq<nat>, value: nat)
    requires Indexed(index, records) && value !in index
    ensures Indexed(index[value := |records|], records + [value])
    ensures index[value := |records|].Keys == index.Keys + {value}
  {
    var more := index[value := |records|];
    assert more.Keys == index.Keys + {value};
  }

  lemma IndexedAt(index: map<nat, nat>, records: seq<nat>, value: nat)
    requires Indexed(index, records) && value in index
    ensures index[value] < |records| == |index.Keys| && records[index[value]] == value
  {
  }

  lemma AllIndexed(index: map<nat, nat>, records: seq<nat>)
    requires Indexed(index, records)
    ensures |records| == |index.Keys| && forall i, j :: 0 <= i < j < |records| ==> records[i] != records[j]
  {
  }

  lemma KindsStep(tuples: seq<Tuple>, cp: nat)
    requires cp < |tuples|
    ensures var old', new', value := Kinds(tuples[..cp]), Kinds(tuples[..cp + 1]), Pack(tuples[cp]);
      new' == old' + {value} && |new'| == |old'| + if value in old' then 0 else 1
  {
    assert tuples[..cp + 1][..cp] == tuples[..cp];
    var old', value := Kinds(tuples[..cp]), Pack(tuples[cp]);
    if value in old' {
      assert old' + {value} == old';
    }
  }

  /** Everything the blocks behind stage 1 hold, end to end. */
  function Joined(blocks: seq<seq<nat>>): seq<nat> {
    if blocks == [] then [] else Joined(blocks[..|blocks| - 1]) + blocks[|blocks| - 1]
  }

  lemma {:induction false} JoinedAt(blocks: seq<seq<nat>>, b: nat, i: nat)
    requires forall k :: 0 <= k < |blocks| ==> |blocks[k]| == BLOCK_SIZE
    requires b < |blocks| && i < BLOCK_SIZE
    ensures |Joined(blocks)| == |blocks| * BLOCK_SIZE && (b + 1) * BLOCK_SIZE <= |Joined(blocks)|
    ensures Joined(blocks)[b * BLOCK_SIZE + i] == blocks[b][i]
    decreases |blocks|
  {
    var init := blocks[..|blocks| - 1];
    JoinedSize(init);
    if b < |blocks| - 1 {
      JoinedAt(init, b, i);
    }
  }

  lemma {:induction false} JoinedSize(blocks: seq<seq<nat>>)
    requires forall k :: 0 <= k < |blocks| ==> |blocks[k]| == BLOCK_SIZE
    ensures |Joined(blocks)| == |blocks| * BLOCK_SIZE
    decreases |blocks|
  {
    if blocks != [] {
      JoinedSize(blocks[..|blocks| - 1]);
    }
  }

  /** Equal blocks are kept once. */
  method BuildTrie(table: seq<nat>) returns (stage1: seq<nat>, stage2: seq<nat>)
    requires |table| == CODESPACE
    ensures |stage1| == CODESPACE / BLOCK_SIZE
    ensures forall b :: 0 <= b < |stage1| ==> (stage1[b] + 1) * BLOCK_SIZE <= |stage2|
    ensures forall b, i :: 0 <= b < |stage1| && 0 <= i < BLOCK_SIZE ==>
      InBlock(stage1[b], i) < |stage2| && stage2[InBlock(stage1[b], i)] == table[InBlock(b, i)]
    ensures forall v :: v in stage2 ==> v in table
  {
    hide InBlock;
    var blocks: seq<seq<nat>>, index: map<seq<nat>, nat> := [], map[];
    stage1 := [];
    var b := 0;
    while b < CODESPACE / BLOCK_SIZE
      invariant b <= CODESPACE / BLOCK_SIZE && |stage1| == b
      invariant forall k :: 0 <= k < |blocks| ==> |blocks[k]| == BLOCK_SIZE
      invariant forall k, v :: 0 <= k < |blocks| && v in blocks[k] ==> v in table
      invariant forall s :: s in index ==> index[s] < |blocks| && blocks[index[s]] == s
      invariant forall k :: 0 <= k < b ==> stage1[k] < |blocks| && blocks[stage1[k]] == BlockOf(table, k)
    {
      var block := BlockOf(table, b);
      if block !in index {
        index := index[block := |blocks|];
        blocks := blocks + [block];
      }
      stage1 := stage1 + [index[block]];
      b := b + 1;
    }
    stage2 := Joined(blocks);
    forall k | 0 <= k < |stage1|
      ensures (stage1[k] + 1) * BLOCK_SIZE <= |stage2|
      ensures forall i :: 0 <= i < BLOCK_SIZE ==>
        InBlock(stage1[k], i) < |stage2| && stage2[InBlock(stage1[k], i)] == table[InBlock(k, i)]
    {
      LookedUp(table, blocks, stage1[k], k);
    }
    JoinedHolds(blocks, table);
  }

  function InBlock(b: nat, i: nat): (r: nat)
    ensures b < CODESPACE / BLOCK_SIZE && i < BLOCK_SIZE ==> r < CODESPACE
  {
    b * BLOCK_SIZE + i
  }

  function BlockOf(table: seq<nat>, b: nat): (s: seq<nat>)
    requires |table| == CODESPACE && b < CODESPACE / BLOCK_SIZE
    ensures |s| == BLOCK_SIZE && forall v :: v in s ==> v in table
  {
    table[b * BLOCK_SIZE..(b + 1) * BLOCK_SIZE]
  }

  lemma Looked(table: seq<nat>, blocks: seq<seq<nat>>, slot: nat, b: nat, i: nat)
    requires |table| == CODESPACE && b < CODESPACE / BLOCK_SIZE && i < BLOCK_SIZE
    requires forall k :: 0 <= k < |blocks| ==> |blocks[k]| == BLOCK_SIZE
    requires slot < |blocks| && blocks[slot] == BlockOf(table, b)
    ensures (slot + 1) * BLOCK_SIZE <= |Joined(blocks)|
    ensures InBlock(slot, i) < |Joined(blocks)| && Joined(blocks)[InBlock(slot, i)] == table[InBlock(b, i)]
  {
    JoinedAt(blocks, slot, i);
  }

  lemma LookedUp(table: seq<nat>, blocks: seq<seq<nat>>, slot: nat, b: nat)
    requires |table| == CODESPACE && b < CODESPACE / BLOCK_SIZE
    requires forall k :: 0 <= k < |blocks| ==> |blocks[k]| == BLOCK_SIZE
    requires slot < |blocks| && blocks[slot] == BlockOf(table, b)
    ensures (slot + 1) * BLOCK_SIZE <= |Joined(blocks)|
    ensures forall i :: 0 <= i < BLOCK_SIZE ==>
      InBlock(slot, i) < |Joined(blocks)| && Joined(blocks)[InBlock(slot, i)] == table[InBlock(b, i)]
  {
    hide InBlock;
    Looked(table, blocks, slot, b, 0);
    forall i | 0 <= i < BLOCK_SIZE
      ensures InBlock(slot, i) < |Joined(blocks)| && Joined(blocks)[InBlock(slot, i)] == table[InBlock(b, i)]
    {
      Looked(table, blocks, slot, b, i);
    }
  }

  lemma {:induction false} JoinedHolds(blocks: seq<seq<nat>>, table: seq<nat>)
    requires forall k, v :: 0 <= k < |blocks| && v in blocks[k] ==> v in table
    ensures forall v :: v in Joined(blocks) ==> v in table
    decreases |blocks|
  {
    if blocks != [] {
      JoinedHolds(blocks[..|blocks| - 1], table);
    }
  }

  /** The whole of it: the tables give back every codepoint's properties, unless there are too many kinds. */
  method BuildTables(tuples: seq<Tuple>) returns (r: Result<Tables>)
    requires |tuples| == CODESPACE && forall cp :: 0 <= cp < |tuples| ==> InRange(tuples[cp])
    ensures r.Ok? <==> |Kinds(tuples)| <= 256
    ensures !r.Stale?
    ensures r.Ok? ==> r.value.Valid()
    ensures r.Ok? ==> forall cp: nat :: Unpack(r.value.Record(cp)) == tuples[if cp < CODESPACE then cp else REPLACEMENT]
  {
    hide Pack, Unpack, InBlock;
    var built := BuildRecords(tuples);
    if built.NoByte? {
      return NoByte(built.at);
    }
    var (records, table) := built.value;
    var stage1, stage2 := BuildTrie(table);
    var tables := Tables(stage1, stage2, records);
    forall i | 0 <= i < |stage2|
      ensures stage2[i] < |records|
    {
      assert stage2[i] in stage2;
    }
    forall cp: nat
      ensures Unpack(tables.Record(cp)) == tuples[if cp < CODESPACE then cp else REPLACEMENT]
    {
      var c := if cp < CODESPACE then cp else REPLACEMENT;
      Splits(c);
      UnpackPacked(tuples[c]);
    }
    return Ok(tables);
  }

  lemma Splits(c: nat)
    requires c < CODESPACE
    ensures c / BLOCK_SIZE < CODESPACE / BLOCK_SIZE && InBlock(c / BLOCK_SIZE, c % BLOCK_SIZE) == c
    ensures forall b: nat :: InBlock(b, c % BLOCK_SIZE) == b * BLOCK_SIZE + c % BLOCK_SIZE
  {
  }
}
