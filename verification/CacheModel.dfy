/** What the cache is: 256 times 16 lines, each holding one key at most. */
module CacheModel {
  import opened Options

  type Byte = b: int | 0 <= b < 256
  type Word32 = w: int | 0 <= w < 0x1_0000_0000
  type Hash = h: int | 0 <= h < 0x1_0000_0000_0000_0000

  /** A key as passed by the caller; a nil key reads as no bytes. */
  datatype Key = Nil | Bytes(bytes: seq<Byte>) {
    function Text(): seq<Byte> { if Nil? then [] else bytes }
    predicate Large() { |Text()| > 65535 }
  }

  // ----- where a key goes ---------------------------------------------------------

  function BucketId(h: Hash): (b: nat)
    ensures b < 256
  {
    h % 256
  }

  function SlotId(h: Hash): (s: nat)
    ensures s < 16
  {
    h / 256 % 256 / 16
  }

  function Hash16(h: Hash): (w: nat)
    ensures w < 0x1_0000
  {
    h / 0x1_0000 % 0x1_0000
  }

  /** The low 32 bits of a hash: what an entry keeps of it, its group, four bits that are not used,
      and its bucket. */
  lemma HashParts(h: Hash)
    ensures h % 0x1_0000_0000 == Hash16(h) * 0x1_0000 + SlotId(h) * 4096 + h / 256 % 16 * 256 + BucketId(h)
  {
    SlotBits(h);
    Nibbles(h);
    HighBits(h);
    var c := h / 0x1_0000;
    assert h == c * 0x1_0000 + h / 4096 % 16 * 4096 + h / 256 % 16 * 256 + h % 256;
    assert h == 0x1_0000_0000 * (c / 0x1_0000) + (c % 0x1_0000 * 0x1_0000 + h % 0x1_0000);
  }

  lemma Nibbles(h: Hash)
    ensures h / 4096 == h / 256 / 16 && h / 0x1_0000 == h / 4096 / 16
  {
    var q := h / 256;
    assert h == 4096 * (q / 16) + (256 * (q % 16) + h % 256);
    assert h == 0x1_0000 * (h / 4096 / 16) + (4096 * (h / 4096 % 16) + h % 4096);
  }

  lemma HighBits(h: Hash)
    ensures h / 0x1_0000_0000 == h / 0x1_0000 / 0x1_0000
  {
    var c := h / 0x1_0000;
    assert h == 0x1_0000_0000 * (c / 0x1_0000) + (0x1_0000 * (c % 0x1_0000) + h % 0x1_0000);
  }

  // ----- expiry ---------------------------------------------------------------------

  /** The stored deadline, in 32 bits that wrap around; zero means never. */
  function ExpireAt(now: Word32, seconds: int): Word32 {
    if seconds > 0 then (now + seconds % 0x1_0000_0000) % 0x1_0000_0000 else 0
  }

  predicate Expired(deadline: Word32, now: Word32) { deadline != 0 && deadline <= now }

  /** An entry that is to live for some seconds is gone exactly when they have passed, if and
      only if the deadline fits into 32 bits or wraps around to zero. */
  lemma ExpiryIsExact(now: Word32, seconds: int)
    requires seconds > 0
    ensures (forall t: Word32 :: Expired(ExpireAt(now, seconds), t) <==> now + seconds <= t)
      <==> now + seconds < 0x1_0000_0000 || (now + seconds) % 0x1_0000_0000 == 0
  {
    var e := ExpireAt(now, seconds);
    assert e == (now + seconds) % 0x1_0000_0000;
    if now + seconds >= 0x1_0000_0000 && e != 0 {
      assert Expired(e, 0xFFFF_FFFF);
    }
  }

  /** An entry lives for ever exactly when it is given no seconds, or the deadline wraps around to
      zero; any other is gone from its stored deadline on. */
  lemma NeverExpires(now: Word32, seconds: int)
    ensures (forall t: Word32 :: !Expired(ExpireAt(now, seconds), t))
      <==> seconds <= 0 || (now + seconds) % 0x1_0000_0000 == 0
    ensures seconds > 0 ==> ExpireAt(now, seconds) == (now + seconds) % 0x1_0000_0000
  {
    var e := ExpireAt(now, seconds);
    if seconds > 0 {
      assert e == (now + seconds) % 0x1_0000_0000;
      if e != 0 {
        assert Expired(e, 0xFFFF_FFFF);
      }
    }
  }

  /** Seconds passed to a set, seen from a later reading of the clock: the entry is still there. */
  predicate Alive(now: Word32, seconds: int, t: Word32) {
    var deadline := (now + seconds) % 0x1_0000_0000;
    seconds <= 0 || deadline == 0 || t < deadline
  }

  lemma AliveIs(now: Word32, seconds: int, t: Word32)
    ensures Alive(now, seconds, t) <==> !Expired(ExpireAt(now, seconds), t)
    ensures now + seconds < 0x1_0000_0000 ==> (Alive(now, seconds, t) <==> seconds <= 0 || t < now + seconds)
  {
    NeverExpires(now, seconds);
  }

  // ----- lines ------------------------------------------------------------------------

  datatype Line<V> = Line(text: seq<Byte>, value: V, deadline: Word32)

  datatype Error = ErrLargeKey | ErrNotFound

  datatype Result<+V> = Hit(value: V) | Miss(error: Error)

  predicate Shape<V>(lines: seq<seq<Option<Line<V>>>>) {
    |lines| == 256 && forall b :: 0 <= b < 256 ==> |lines[b]| == 16
  }

  function EmptyLines<V>(): (lines: seq<seq<Option<Line<V>>>>)
    ensures Shape(lines)
  {
    seq(256, _ => seq(16, _ => None))
  }

  function At<V>(lines: seq<seq<Option<Line<V>>>>, h: Hash): Option<Line<V>>
    requires Shape(lines)
  {
    lines[BucketId(h)][SlotId(h)]
  }

  function Put<V>(lines: seq<seq<Option<Line<V>>>>, h: Hash, l: Option<Line<V>>): (r: seq<seq<Option<Line<V>>>>)
    requires Shape(lines)
    ensures Shape(r)
  {
    lines[BucketId(h) := lines[BucketId(h)][SlotId(h) := l]]
  }

  // ----- what each request does to the line of its key ------------------------------------

  /** A set replaces the line, unless the key is too large; a nil key leaves it empty. */
  function SetLine<V>(l: Option<Line<V>>, key: Key, value: V, deadline: Word32): Option<Line<V>> {
    if key.Large() then l else if key.Nil? then None else Some(Line(key.bytes, value, deadline))
  }

  function GetLine<V>(l: Option<Line<V>>, key: Key, now: Word32): Result<V> {
    if key.Large() then Miss(ErrLargeKey)
    else if l.Some? && l.value.text == key.Text() && !Expired(l.value.deadline, now) then Hit(l.value.value)
    else Miss(ErrNotFound)
  }

  /** A delete empties the line if it holds the key. */
  function DelLine<V(==)>(l: Option<Line<V>>, key: Key): Option<Line<V>> {
    if !key.Large() && l.Some? && l.value.text == key.Text() then None else l
  }

  // ----- histories -----------------------------------------------------------------------------

  datatype Request<V> =
    | Set(key: Key, value: V, seconds: int, now: Word32)
    | Get(key: Key, now: Word32)
    | Del(key: Key)
    | Clear

  /** The cache: its lines and its counters. */
  datatype State<V> = State(lines: seq<seq<Option<Line<V>>>>, hits: nat, misses: nat)

  function Initial<V>(): State<V> { State(EmptyLines(), 0, 0) }

  ghost function Step<V>(hash: seq<Byte> -> Hash, s: State<V>, r: Request<V>): (t: State<V>)
    requires Shape(s.lines)
    ensures Shape(t.lines)
  {
    match r
    case Set(key, value, seconds, now) =>
      var h := hash(key.Text());
      s.(lines := Put(s.lines, h, SetLine(At(s.lines, h), key, value, ExpireAt(now, seconds))))
    case Get(key, now) =>
      if GetLine(At(s.lines, hash(key.Text())), key, now).Hit? then s.(hits := s.hits + 1)
        else s.(misses := s.misses + 1)
    case Del(key) =>
      var h := hash(key.Text());
      s.(lines := Put(s.lines, h, DelLine(At(s.lines, h), key)))
    case Clear => Initial()
  }

  ghost function Run<V>(hash: seq<Byte> -> Hash, history: seq<Request<V>>): (s: State<V>)
    ensures Shape(s.lines)
  {
    if history == [] then Initial()
    else Step(hash, Run(hash, history[..|history| - 1]), history[|history| - 1])
  }

  /** What a request is answered in a state; only gets have an answer. */
  ghost function AnswerTo<V>(hash: seq<Byte> -> Hash, s: State<V>, r: Request<V>): Option<Result<V>>
    requires Shape(s.lines)
  {
    match r
    case Get(key, now) => Some(GetLine(At(s.lines, hash(key.Text())), key, now))
    case _ => None
  }

  predicate SameLine(h: Hash, k: Hash) { BucketId(h) == BucketId(k) && SlotId(h) == SlotId(k) }

  /** A request that takes the key out of its line: a later set into the same line, a delete
      of the key, or a clear. */
  predicate Displaces<V>(hash: seq<Byte> -> Hash, text: seq<Byte>, r: Request<V>) {
    match r
    case Set(key, _, _, _) => !key.Large() && SameLine(hash(key.Text()), hash(text))
    case Get(_, _) => false
    case Del(key) => key.Text() == text
    case Clear => true
  }

  /** Request `i` set the key to the value, with this deadline, and nothing has displaced it since. */
  predicate SetAndKept<V(==)>(hash: seq<Byte> -> Hash, history: seq<Request<V>>, i: nat, l: Line<V>) {
    && i < |history|
    && history[i].Set? && history[i].key == Bytes(l.text) && !history[i].key.Large()
    && history[i].value == l.value && l.deadline == ExpireAt(history[i].now, history[i].seconds)
    && forall j :: i < j < |history| ==> !Displaces(hash, l.text, history[j])
  }

  ghost predicate Kept<V>(hash: seq<Byte> -> Hash, history: seq<Request<V>>, l: Line<V>) {
    exists i :: SetAndKept(hash, history, i, l)
  }

  /** After every history a line holds a key exactly when the last set into the line was of that
      key and it has been neither deleted nor cleared since. */
  lemma {:induction false} LineHolds<V>(hash: seq<Byte> -> Hash, history: seq<Request<V>>, l: Line<V>)
    ensures At(Run(hash, history).lines, hash(l.text)) == Some(l) <==> Kept(hash, history, l)
  {
    if |l.text| > 65535 {
      LinesHoldTheirOwn(hash, history, hash(l.text));
    } else if history != [] {
      var n := |history| - 1;
      var front, last := history[..n], history[n];
      hide Step, Displaces, ExpireAt;
      LineHolds(hash, front, l);
      LineAfter(hash, Run(hash, front), last, l);
      if SetAndKept(hash, history, n, l) {
      } else if Displaces(hash, l.text, last) {
        assert forall i :: SetAndKept(hash, history, i, l) ==> i == n;
      } else {
        KeptSoFar(hash, history, l);
      }
    }
  }

  lemma LineAfter<V>(hash: seq<Byte> -> Hash, s: State<V>, r: Request<V>, l: Line<V>)
    requires Shape(s.lines) && |l.text| <= 65535
    ensures At(Step(hash, s, r).lines, hash(l.text)) == Some(l)
      <==> (&& r.Set? && r.key == Bytes(l.text) && !r.key.Large()
            && r.value == l.value && l.deadline == ExpireAt(r.now, r.seconds))
           || (!Displaces(hash, l.text, r) && At(s.lines, hash(l.text)) == Some(l))
  {
    hide ExpireAt;
  }

  lemma KeptSoFar<V>(hash: seq<Byte> -> Hash, history: seq<Request<V>>, l: Line<V>)
    requires history != [] && !Displaces(hash, l.text, history[|history| - 1])
    ensures !SetAndKept(hash, history, |history| - 1, l) ==>
      (Kept(hash, history, l) <==> Kept(hash, history[..|history| - 1], l))
  {
    var front := history[..|history| - 1];
    forall i: nat | i < |front|
      ensures SetAndKept(hash, history, i, l) <==> SetAndKept(hash, front, i, l)
    {
      assert forall j :: 0 <= j < |front| ==> front[j] == history[j];
    }
  }

  /** A line only ever holds a key that belongs there, and no key that is too large. */
  lemma {:induction false} LinesHoldTheirOwn<V>(hash: seq<Byte> -> Hash, history: seq<Request<V>>, h: Hash)
    ensures var l := At(Run(hash, history).lines, h);
      l.Some? ==> SameLine(hash(l.value.text), h) && |l.value.text| <= 65535
  {
    if history != [] {
      LinesHoldTheirOwn(hash, history[..|history| - 1], h);
    }
  }

  /** The last request that set this key gave it the value and the seconds, and nothing has displaced
      it since: no later set of a key that goes to the same line, no delete of the key, no clear. */
  predicate LastSet<V(==)>(hash: seq<Byte> -> Hash, history: seq<Request<V>>, i: nat, text: seq<Byte>, value: V) {
    && i < |history| && history[i].Set? && history[i].key == Bytes(text) && history[i].value == value
    && |text| <= 65535
    && forall j :: i < j < |history| ==>
         match history[j]
         case Set(key, _, _, _) => |key.Text()| > 65535 || !SameLine(hash(key.Text()), hash(text))
         case Get(_, _) => true
         case Del(key) => key.Text() != text
         case Clear => false
  }

  lemma LastSetIs<V>(hash: seq<Byte> -> Hash, history: seq<Request<V>>, i: nat, text: seq<Byte>, value: V)
    ensures LastSet(hash, history, i, text, value) <==>
      i < |history| && history[i].Set?
      && SetAndKept(hash, history, i, Line(text, value, ExpireAt(history[i].now, history[i].seconds)))
  {
    hide ExpireAt, SameLine;
  }

  /** Two hashes go to the same line when they agree in their lowest eight bits and in bits 12 to 15. */
  lemma SameLineIs(h: Hash, k: Hash)
    ensures SameLine(h, k) <==> h % 256 == k % 256 && h / 4096 % 16 == k / 4096 % 16
  {
    SlotBits(h);
    SlotBits(k);
  }

  lemma SlotBits(h: Hash)
    ensures h / 256 % 256 / 16 == h / 4096 % 16
  {
    Nibbles(h);
    var q := h / 256;
    var r := q % 256;
    SixteensOf(q / 256, r / 16, r % 16);
    assert q == 256 * (q / 256) + 16 * (r / 16) + r % 16;
  }

  lemma SixteensOf(u: nat, x: nat, y: nat)
    requires x < 16 && y < 16
    ensures var q := 256 * u + 16 * x + y; q % 256 / 16 == x == q / 16 % 16
  {
    var q := 256 * u + 16 * x + y;
    assert q % 256 == 16 * x + y;
    assert q / 16 == 16 * u + x;
  }

  /** A get hits with a value exactly when some set gave the key that value, nothing has displaced it
      since, and the seconds of that set have not passed: never for no seconds, and otherwise from the
      sum of its time and its seconds on, in 32 bits. What is not a hit is a miss, of its own kind for
      a key that is too large. */
  lemma HitsExactly<V(!new)>(hash: seq<Byte> -> Hash, history: seq<Request<V>>, key: Key, now: Word32, value: V)
    ensures GetLine(At(Run(hash, history).lines, hash(key.Text())), key, now) == Hit(value)
      <==> exists i: nat ::
        LastSet(hash, history, i, key.Text(), value) && Alive(history[i].now, history[i].seconds, now)
    ensures var r := GetLine(At(Run(hash, history).lines, hash(key.Text())), key, now);
      r.Hit? || r == Miss(if |key.Text()| > 65535 then ErrLargeKey else ErrNotFound)
  {
    hide SameLine, ExpireAt, Expired, Alive;
    HeldHits(hash, history, key, now, value);
    KeptIsLastSet(hash, history, key.Text(), now, value);
  }

  lemma KeptIsLastSet<V(!new)>(
      hash: seq<Byte> -> Hash, history: seq<Request<V>>, text: seq<Byte>, now: Word32, value: V)
    ensures (exists l: Line<V> ::
        l.text == text && l.value == value && !Expired(l.deadline, now) && Kept(hash, history, l))
      <==> exists i: nat :: LastSet(hash, history, i, text, value) && Alive(history[i].now, history[i].seconds, now)
  {
    hide SameLine, ExpireAt, Expired, Alive, Displaces;
    if l: Line<V> :| l.text == text && l.value == value && !Expired(l.deadline, now) && Kept(hash, history, l) {
      var i: nat :| SetAndKept(hash, history, i, l);
      LastSetIs(hash, history, i, text, value);
      AliveIs(history[i].now, history[i].seconds, now);
    }
    if i: nat :| LastSet(hash, history, i, text, value) && Alive(history[i].now, history[i].seconds, now) {
      LastSetIs(hash, history, i, text, value);
      AliveIs(history[i].now, history[i].seconds, now);
      var l := Line(text, value, ExpireAt(history[i].now, history[i].seconds));
      assert SetAndKept(hash, history, i, l);
      assert Kept(hash, history, l);
    }
  }

  lemma HeldHits<V(!new)>(hash: seq<Byte> -> Hash, history: seq<Request<V>>, key: Key, now: Word32, value: V)
    ensures GetLine(At(Run(hash, history).lines, hash(key.Text())), key, now) == Hit(value)
      <==> exists l: Line<V> ::
        l.text == key.Text() && l.value == value && !Expired(l.deadline, now) && Kept(hash, history, l)
  {
    var held := At(Run(hash, history).lines, hash(key.Text()));
    LinesHoldTheirOwn(hash, history, hash(key.Text()));
    if held.Some? {
      LineHolds(hash, history, held.value);
    }
    forall l: Line<V> | l.text == key.Text() && Kept(hash, history, l)
      ensures held == Some(l)
    {
      LineHolds(hash, history, l);
    }
  }

  function GetsSinceClear<V>(history: seq<Request<V>>): nat {
    if history == [] || history[|history| - 1].Clear? then 0
    else GetsSinceClear(history[..|history| - 1]) + (if history[|history| - 1].Get? then 1 else 0)
  }

  /** Every get since the last clear is counted once, a hit as a hit and a miss as a miss. */
  lemma {:induction false} GetsAreCounted<V>(hash: seq<Byte> -> Hash, history: seq<Request<V>>)
    ensures var s := Run(hash, history); s.hits + s.misses == GetsSinceClear(history)
    ensures history != [] && history[|history| - 1].Get? ==>
      var n := |history| - 1;
      var before, after := Run(hash, history[..n]), Run(hash, history);
      match AnswerTo(hash, before, history[n]).value
      case Hit(_) => after == before.(hits := before.hits + 1)
      case Miss(_) => after == before.(misses := before.misses + 1)
  {
    hide GetLine, SetLine, DelLine, SameLine;
    if history != [] {
      GetsAreCounted(hash, history[..|history| - 1]);
    }
  }
}
