/** The cache as written: buckets of 256 entries, searched by hash in groups of eight. */
module Cache {
  import opened Options
  import opened CacheModel

  datatype Entry<+V> = Entry(key: Key, value: Option<V>, expireAt: Word32, hash16: nat, slotId: nat) {

    predicate Holds(text: seq<Byte>) { key.Bytes? && key.bytes == text }
  }

  function EmptyEntry<V>(): Entry<V> { Entry(Nil, None, 0, 0, 0) }

  // ----- searching one group ---------------------------------------------------------

  predicate Sorted<V>(slot: seq<Entry<V>>) {
    forall i, j :: 0 <= i < j < |slot| ==> slot[i].hash16 <= slot[j].hash16
  }

  predicate DistinctKeys<V>(slot: seq<Entry<V>>) {
    forall i, j :: 0 <= i < j < |slot| && slot[i].key.Bytes? ==> !slot[j].Holds(slot[i].key.bytes)
  }

  /** Entries carry the hash of their key. */
  predicate Hashed<V>(slot: seq<Entry<V>>, hash: seq<Byte> -> Hash) {
    forall i :: 0 <= i < |slot| && slot[i].key.Bytes? ==> slot[i].hash16 == Hash16(hash(slot[i].key.bytes))
  }

  /** Binary search: the first entry with a hash of at least `w`, or the last entry. */
  method EntryIdx<V>(slot: seq<Entry<V>>, w: nat) returns (idx: nat)
    ensures slot != [] ==> idx < |slot|
    ensures Sorted(slot) ==> forall j :: 0 <= j < idx < |slot| ==> slot[j].hash16 < w
    ensures Sorted(slot) && idx + 1 < |slot| ==> w <= slot[idx].hash16
  {
    var high: int := |slot| - 1;
    idx := 0;
    while idx < high
      invariant slot != [] ==> idx <= high < |slot|
      invariant Sorted(slot) ==> forall j :: 0 <= j < idx < |slot| ==> slot[j].hash16 < w
      invariant Sorted(slot) && 0 <= high < |slot| - 1 ==> w <= slot[high].hash16
      decreases high - idx
    {
      var mid := (idx + high) / 2;
      if slot[mid].hash16 < w {
        idx := mid + 1;
      } else {
        high := mid;
      }
    }
  }

  /** In a sorted group the search finds a key exactly when it is there; otherwise it gives
      the first entry with a larger hash, or the last entry. */
  method Lookup<V>(slot: seq<Entry<V>>, w: nat, key: Key) returns (idx: nat, found: bool)
    ensures slot != [] ==> idx < |slot|
    ensures found ==> idx < |slot| && slot[idx].hash16 == w && slot[idx].Holds(key.Text())
    ensures Sorted(slot) ==>
      (found <==> exists j :: 0 <= j < |slot| && slot[j].hash16 == w && slot[j].Holds(key.Text()))
    ensures Sorted(slot) ==> forall j :: 0 <= j < idx < |slot| ==> slot[j].hash16 <= w
    ensures Sorted(slot) && !found && idx + 1 < |slot| ==> w < slot[idx].hash16
  {
    found := false;
    idx := EntryIdx(slot, w);
    while idx < |slot|
      invariant slot != [] ==> idx < |slot|
      invariant !found
      invariant Sorted(slot) ==> forall j :: 0 <= j < idx < |slot| ==> slot[j].hash16 <= w
      invariant Sorted(slot) && idx + 1 < |slot| ==> w <= slot[idx].hash16
      invariant Sorted(slot) ==> forall j :: 0 <= j < idx < |slot| && slot[j].hash16 == w ==> !slot[j].Holds(key.Text())
      decreases |slot| - idx
    {
      var ent := slot[idx];
      if ent.hash16 != w {
        break;
      }
      found := ent.key.Bytes? && ent.key.bytes == key.Text();
      if found || idx == |slot| - 1 {
        return;
      }
      idx := idx + 1;
    }
  }

  /** What Lookup promises of the place it returns. */
  predicate Place<V>(slot: seq<Entry<V>>, w: nat, text: seq<Byte>, idx: nat, found: bool) {
    && idx < |slot|
    && (found ==> slot[idx].hash16 == w && slot[idx].Holds(text))
    && (found <==> exists j :: 0 <= j < |slot| && slot[j].hash16 == w && slot[j].Holds(text))
    && (forall j :: 0 <= j < idx ==> slot[j].hash16 <= w)
    && (!found && idx + 1 < |slot| ==> w < slot[idx].hash16)
  }

  /** Writing an entry where Lookup says keeps the group sorted and its keys distinct. */
  lemma SetKeepsGroup<V>(slot: seq<Entry<V>>, e: Entry<V>, hash: seq<Byte> -> Hash, idx: nat, found: bool)
    requires Sorted(slot) && DistinctKeys(slot) && Hashed(slot, hash)
    requires e.hash16 == Hash16(hash(e.key.Text())) && Place(slot, e.hash16, e.key.Text(), idx, found)
    ensures var s := slot[idx := e]; Sorted(s) && DistinctKeys(s) && Hashed(s, hash)
  {
    var s := slot[idx := e];
    forall i, j | 0 <= i < j < |s|
      ensures s[i].hash16 <= s[j].hash16
      ensures s[i].key.Bytes? ==> !s[j].Holds(s[i].key.bytes)
    {
      if j == idx {
        assert found && slot[i].key.Bytes? ==> !slot[idx].Holds(slot[i].key.bytes);
      } else if i == idx {
        assert found ==> slot[idx].hash16 <= slot[j].hash16;
      }
    }
  }

  /** A group that holds nothing before its last entry. */
  ghost predicate OnlyLast<V>(slot: seq<Entry<V>>) {
    |slot| == 8 && forall i :: 0 <= i < 7 ==> slot[i] == EmptyEntry()
  }

  /** In such a group the search always ends at the last entry. */
  lemma SearchEndsLast<V>(slot: seq<Entry<V>>, w: nat, text: seq<Byte>, idx: nat, found: bool)
    requires OnlyLast(slot) && Place(slot, w, text, idx, found)
    ensures idx == 7 && (found <==> slot[7].hash16 == w && slot[7].Holds(text))
  {
  }

  // ----- one bucket -----------------------------------------------------------------------

  function LineOf<V>(e: Entry<V>): Option<Line<V>>
    requires e.key.Bytes? ==> e.value.Some?
  {
    if e.key.Nil? then None else Some(Line(e.key.bytes, e.value.value, e.expireAt))
  }

  class Bucket<V> {
    ghost const hash: seq<Byte> -> Hash
    const id: nat
    const slots: array<Entry<V>>
    var totalExpired: nat

    /** Only the last entry of each of the first 16 groups is ever in use. */
    ghost predicate Valid()
      reads slots
    {
      && slots.Length == 256
      && (forall i :: 0 <= i < 256 && (i % 8 != 7 || 128 <= i) ==> slots[i] == EmptyEntry())
      && (forall s :: 0 <= s < 16 ==> EntryOk(slots[8 * s + 7]))
    }

    ghost predicate EntryOk(e: Entry<V>) {
      e.key.Bytes? ==> e.value.Some? && e.hash16 == Hash16(hash(e.key.bytes)) && |e.key.bytes| <= 65535
    }

    ghost function Lines(): (ls: seq<Option<Line<V>>>)
      requires Valid()
      reads slots
      ensures |ls| == 16
    {
      seq(16, s requires 0 <= s < 16 && Valid() reads slots => LineOf(slots[8 * s + 7]))
    }

    constructor (id: nat, ghost hash: seq<Byte> -> Hash)
      ensures Valid() && fresh(slots) && this.hash == hash && this.id == id
      ensures Lines() == seq(16, _ => None) && totalExpired == 0
    {
      this.id := id;
      this.hash := hash;
      slots := new Entry<V>[256](_ => EmptyEntry());
      totalExpired := 0;
    }

    lemma Group(s: nat)
      requires Valid() && s < 16
      ensures 8 * s + 8 <= slots.Length
      ensures var slot := slots[8 * s..8 * s + 8];
        OnlyLast(slot) && Sorted(slot) && slot[7] == slots[8 * s + 7] && EntryOk(slot[7])
    {
      var slot := slots[8 * s..8 * s + 8];
      forall i | 0 <= i < 7
        ensures slot[i] == EmptyEntry()
      {
        assert slot[i] == slots[8 * s + i] && (8 * s + i) % 8 == i;
      }
    }

    /** The place for a key in its group: always the last entry. */
    method Find(key: Key, h: Hash) returns (at: nat, found: bool)
      requires Valid() && h == hash(key.Text())
      ensures at == 8 * SlotId(h) + 7
      ensures found <==> slots[at].Holds(key.Text())
    {
      var start := 8 * SlotId(h);
      var slot := slots[start..start + 8];
      Group(SlotId(h));
      var offset, m := Lookup(slot, Hash16(h), key);
      SearchEndsLast(slot, Hash16(h), key.Text(), offset, m);
      at, found := start + offset, m;
    }

    /** Writes one entry, the last of the key's group. */
    method Set(key: Key, value: V, h: Hash, seconds: int, now: Word32) returns (err: Option<Error>)
      requires Valid() && h == hash(key.Text())
      modifies slots
      ensures Valid()
      ensures err == if key.Large() then Some(ErrLargeKey) else None
      ensures Lines() == old(Lines())[SlotId(h) := SetLine(old(Lines())[SlotId(h)], key, value, ExpireAt(now, seconds))]
      ensures forall i :: 0 <= i < 256 && i != 8 * SlotId(h) + 7 ==> slots[i] == old(slots[i])
    {
      if key.Large() {
        return Some(ErrLargeKey);
      }
      var at, found := Find(key, h);
      slots[at] := Entry(key, Some(value), ExpireAt(now, seconds), Hash16(h), SlotId(h));
      return None;
    }

    method Get(key: Key, h: Hash, now: Word32) returns (r: Result<V>)
      requires Valid() && h == hash(key.Text())
      modifies this`totalExpired
      ensures Valid() && r == GetLine(Lines()[SlotId(h)], key, now)
      ensures totalExpired == old(totalExpired) +
        (if !key.Large() && Lines()[SlotId(h)].Some? && Lines()[SlotId(h)].value.text == key.Text()
            && Expired(Lines()[SlotId(h)].value.deadline, now) then 1 else 0)
    {
      if key.Large() {
        return Miss(ErrLargeKey);
      }
      var at, found := Find(key, h);
      assert Lines()[SlotId(h)] == LineOf(slots[at]);
      if !found {
        return Miss(ErrNotFound);
      }
      if slots[at].expireAt != 0 && slots[at].expireAt <= now {
        totalExpired := totalExpired + 1;
        return Miss(ErrNotFound);
      }
      return Hit(slots[at].value.value);
    }

    /** Empties the key's entry; whether it was there is not reported. */
    method Del(key: Key, h: Hash) returns (affected: bool)
      requires Valid() && h == hash(key.Text())
      modifies slots
      ensures Valid() && !affected
      ensures Lines() == old(Lines())[SlotId(h) := DelLine(old(Lines())[SlotId(h)], key)]
      ensures forall i :: 0 <= i < 256 && i != 8 * SlotId(h) + 7 ==> slots[i] == old(slots[i])
    {
      affected := false;
      if key.Large() {
        return;
      }
      var at, found := Find(key, h);
      if found {
        slots[at] := EmptyEntry();
      }
    }
  }

  // ----- the cache --------------------------------------------------------------------------

  class Cache<V> {
    const hash: seq<Byte> -> Hash
    var buckets: seq<Bucket<V>>
    var hits: nat
    var misses: nat
    ghost var repr: set<object>

    ghost predicate Valid()
      reads this, repr
    {
      && |buckets| == 256
      && (forall i :: 0 <= i < 256 ==>
            && buckets[i] in repr && buckets[i].slots in repr && buckets[i].Valid()
            && buckets[i].hash == hash && buckets[i].id == i)
      && (forall i, j :: 0 <= i < j < 256 ==> buckets[i] != buckets[j] && buckets[i].slots != buckets[j].slots)
      && this !in repr
    }

    /** The lines and counters that the buckets stand for. */
    ghost function State(): (s: CacheModel.State<V>)
      requires Valid()
      reads this, repr
      ensures Shape(s.lines)
    {
      CacheModel.State(
        seq(256, i requires 0 <= i < 256 && Valid() reads this, repr => buckets[i].Lines()), hits, misses)
    }

    constructor (hash: seq<Byte> -> Hash)
      ensures Valid() && fresh(repr) && this.hash == hash && State() == Initial()
    {
      this.hash := hash;
      buckets, hits, misses, repr := [], 0, 0, {};
      new;
      for i := 0 to 256
        invariant |buckets| == i && hits == misses == 0 && fresh(repr) && this !in repr
        invariant forall k :: 0 <= k < i ==>
          && buckets[k] in repr && buckets[k].slots in repr && buckets[k].Valid()
          && buckets[k].hash == hash && buckets[k].id == k && buckets[k].Lines() == seq(16, _ => None)
        invariant forall j, k :: 0 <= j < k < i ==> buckets[j] != buckets[k] && buckets[j].slots != buckets[k].slots
      {
        var b := new Bucket<V>(i, hash);
        buckets := buckets + [b];
        repr := repr + {b, b.slots};
      }
      assert State().lines == EmptyLines<V>();
    }

    method Set(key: Key, value: V, seconds: int, now: Word32) returns (err: Option<Error>)
      requires Valid()
      modifies repr
      ensures Valid() && repr == old(repr)
      ensures err == if key.Large() then Some(ErrLargeKey) else None
      ensures State() == Step(hash, old(State()), CacheModel.Set(key, value, seconds, now))
    {
      var h := hash(key.Text());
      ghost var before := State();
      err := buckets[BucketId(h)].Set(key, value, h, seconds, now);
      assert State().lines == Step(hash, before, CacheModel.Set(key, value, seconds, now)).lines;
    }

    method Get(key: Key, now: Word32) returns (r: Result<V>)
      requires Valid()
      modifies this`hits, this`misses, repr
      ensures Valid() && repr == old(repr)
      ensures r == GetLine(At(old(State()).lines, hash(key.Text())), key, now)
      ensures State() == Step(hash, old(State()), CacheModel.Get(key, now))
    {
      var h := hash(key.Text());
      ghost var before := State();
      r := buckets[BucketId(h)].Get(key, h, now);
      if r.Hit? {
        hits := hits + 1;
      } else {
        misses := misses + 1;
      }
      assert State().lines == before.lines;
    }

    method Del(key: Key) returns (affected: bool)
      requires Valid()
      modifies repr
      ensures Valid() && repr == old(repr) && !affected
      ensures State() == Step(hash, old(State()), CacheModel.Del(key))
    {
      var h := hash(key.Text());
      ghost var before := State();
      affected := buckets[BucketId(h)].Del(key, h);
      assert State().lines == Step(hash, before, CacheModel.Del(key)).lines;
    }

    /** Replaces every bucket and resets the counters. */
    method Clear()
      requires Valid()
      modifies this
      ensures Valid() && fresh(repr - old(repr)) && State() == Initial()
    {
      var i := 0;
      ghost var kept := repr;
      while i < 256
        invariant 0 <= i <= 256 && Valid() && fresh(repr - old(repr))
        invariant forall k :: 0 <= k < i ==> buckets[k].Lines() == seq(16, _ => None)
      {
        var b := new Bucket<V>(i, hash);
        buckets := buckets[i := b];
        repr := repr + {b, b.slots};
        i := i + 1;
      }
      hits := 0;
      misses := 0;
      assert State().lines == EmptyLines<V>();
    }

    method Handle(r: Request<V>) returns (answer: Option<Result<V>>)
      requires Valid()
      modifies this, repr
      ensures Valid() && fresh(repr - old(repr))
      ensures State() == Step(hash, old(State()), r)
      ensures answer == AnswerTo(hash, old(State()), r)
    {
      answer := None;
      match r {
        case Set(key, value, seconds, now) =>
          var _ := Set(key, value, seconds, now);
        case Get(key, now) =>
          var result := Get(key, now);
          answer := Some(result);
        case Del(key) =>
          var _ := Del(key);
        case Clear =>
          Clear();
      }
    }

    /** Any history of requests, with the answers to its gets: the cache is the model of lines. */
    method Replay(history: seq<Request<V>>) returns (answers: seq<Option<Result<V>>>)
      requires Valid() && State() == Initial()
      modifies this, repr
      ensures Valid() && State() == Run(hash, history)
      ensures |answers| == |history|
      ensures forall i :: 0 <= i < |history| ==> answers[i] == AnswerTo(hash, Run(hash, history[..i]), history[i])
    {
      hide Valid, State, Step, AnswerTo;
      answers := [];
      for i := 0 to |history|
        invariant Valid() && fresh(repr - old(repr)) && State() == Run(hash, history[..i]) && |answers| == i
        invariant forall j :: 0 <= j < i ==> answers[j] == AnswerTo(hash, Run(hash, history[..j]), history[j])
      {
        assert history[..i + 1][..i] == history[..i];
        var answer := Handle(history[i]);
        answers := answers + [answer];
      }
      assert history[..|history|] == history;
    }
  }
}
