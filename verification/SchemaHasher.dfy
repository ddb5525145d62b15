/**
 The hasher of the schema validator: a stack machine over the events of a value, whose result does not depend on the
 order of object members.
 */
module SchemaHasher {
  import opened JsonTypes
  import opened JsonDocument
  import opened JsonCounts

  type Word = bv64

  const OFFSET: Word := 0x8422_2325_CBF2_9CE4

  /** Type. */
  const NULL_TYPE: Word := 0
  const FALSE_TYPE: Word := 1
  const TRUE_TYPE: Word := 2
  const OBJECT_TYPE: Word := 3
  const ARRAY_TYPE: Word := 4
  const STRING_TYPE: Word := 5
  const NUMBER_TYPE: Word := 6

  function Xor(a: Word, b: Word): Word {
    a ^ b
  }

  function TimesPrime(x: Word): Word {
    x * 0x0000_0100_0000_01B3
  }

  function Hash(h: Word, d: Word): Word {
    TimesPrime(Xor(h, d))
  }

  /** WriteBuffer, from a hash of the type on. */
  function HashData(h: Word, data: seq<Word>): Word
    decreases |data|
  {
    if data == [] then h else HashData(Hash(h, data[0]), data[1..])
  }

  function HashBuffer(kind: Word, data: seq<Word>): Word {
    HashData(Hash(OFFSET, kind), data)
  }

  function StringData(s: string): seq<Word> {
    seq(|s|, i requires 0 <= i < |s| => (s[i] as int % 0x100) as Word)
  }

  function HashString(s: string): Word {
    HashBuffer(STRING_TYPE, StringData(s))
  }

  /** How the bytes of a number lie in memory: its integer and its double, as one record. */
  type Image = Number -> seq<Word>

  // ---- The hash of a value ----------------------------------------------------------------------

  /** The hash, by recursion on the value; members are combined by exclusive or, elements in their order. */
  function HashOf(image: Image, v: Value): Word {
    match v
    case NullValue => HashBuffer(NULL_TYPE, [])
    case BoolValue(b) => HashBuffer(if b then TRUE_TYPE else FALSE_TYPE, [])
    case NumberValue(n) => HashBuffer(NUMBER_TYPE, image(n))
    case StringValue(s) => HashString(s)
    case ObjectValue(ms) => Xor(Hash(0, OBJECT_TYPE), HashMembers(image, ms))
    case ArrayValue(es) => HashElements(image, Hash(0, ARRAY_TYPE), es)
  }

  function HashMember(image: Image, m: Member): Word {
    Hash(HashString(m.name), HashOf(image, m.value))
  }

  function HashMembers(image: Image, ms: seq<Member>): Word {
    if ms == [] then 0 else Xor(HashMember(image, ms[0]), HashMembers(image, ms[1..]))
  }

  function HashElements(image: Image, h: Word, es: seq<Value>): Word
    decreases es
  {
    if es == [] then h else HashElements(image, Hash(h, HashOf(image, es[0])), es[1..])
  }

  // ---- The stack machine ------------------------------------------------------------------------

  type Words = seq<Word>

  /** Memory, from the top of the stack on; whatever is there. */
  type Memory = nat -> Word

  /** The words that EndObject pops: `memberCount * 2`, in 32 bits. */
  function Popped(n: nat): nat {
    2 * n % SIZE_LIMIT
  }

  predicate HasWords(stack: Words, e: Event) {
    match e
    case EndObject(n) => Popped(n) <= |stack|
    case EndArray(n) => n <= |stack|
    case _ => true
  }

  /** The word at index `k` from where the popped words begin, which may be beyond them. */
  function WordAt(kv: Words, above: Memory, k: nat): Word {
    if k < |kv| then kv[k] else above(k - |kv|)
  }

  /** The loop of EndObject, from member `i` on; its indices are 32 bits wide too. */
  function FoldPairs(h: Word, kv: Words, above: Memory, i: nat, n: nat): Word
    requires i <= n
    decreases n - i
  {
    if i == n then h
    else
      FoldPairs(Xor(h, Hash(WordAt(kv, above, Popped(i)), WordAt(kv, above, Popped(i) + 1))), kv, above, i + 1, n)
  }

  /** Names and values in turn, as they should be combined. */
  function FoldMembers(h: Word, kv: Words): Word
    decreases |kv|
  {
    if |kv| < 2 then h else FoldMembers(Xor(h, Hash(kv[0], kv[1])), kv[2..])
  }

  function FoldElements(h: Word, e: Words): Word
    decreases |e|
  {
    if e == [] then h else FoldElements(Hash(h, e[0]), e[1..])
  }

  /** The stack after an event. */
  function Hashed(image: Image, stack: Words, above: Memory, e: Event): Words
    requires HasWords(stack, e)
  {
    match e
    case Null => stack + [HashBuffer(NULL_TYPE, [])]
    case Bool(b) => stack + [HashBuffer(if b then TRUE_TYPE else FALSE_TYPE, [])]
    case Num(n) => stack + [HashBuffer(NUMBER_TYPE, image(n))]
    case String(s) => stack + [HashString(s)]
    case Key(s) => stack + [HashString(s)]
    case StartObject => stack
    case StartArray => stack
    case EndObject(n) =>
      var base := |stack| - Popped(n);
      stack[..base] + [FoldPairs(Hash(0, OBJECT_TYPE), stack[base..], above, 0, n)]
    case EndArray(n) => stack[..|stack| - n] + [FoldElements(Hash(0, ARRAY_TYPE), stack[|stack| - n..])]
  }

  datatype Run = Hashes(stack: Words) | Missing

  /** A run over events; what is above the stack at each event is any function of how many are still to come. */
  function Hashing(image: Image, memory: nat -> Memory, stack: Words, events: seq<Event>): Run
    decreases |events|
  {
    if events == [] then Hashes(stack)
    else if !HasWords(stack, events[0]) then Missing
    else Hashing(image, memory, Hashed(image, stack, memory(|events|), events[0]), events[1..])
  }

  class Hasher {
    const image: Image
    var stack: Words

    constructor (image: Image)
      ensures this.image == image && stack == []
    {
      this.image, stack := image, [];
    }

    method WriteBuffer(kind: Word, data: seq<Word>)
      modifies this
      ensures stack == old(stack) + [HashBuffer(kind, data)]
    {
      var h := Hash(OFFSET, kind);
      var i := 0;
      while i < |data|
        invariant 0 <= i <= |data| && stack == old(stack)
        invariant HashData(h, data[i..]) == HashBuffer(kind, data)
      {
        assert data[i..][1..] == data[i + 1..];
        h := Hash(h, data[i]);
        i := i + 1;
      }
      stack := stack + [h];
    }

    /** `above` is what lies in memory above the stack. */
    method EndObject(memberCount: nat, above: Memory)
      requires memberCount < SIZE_LIMIT && Popped(memberCount) <= |stack|
      modifies this
      ensures stack == Hashed(image, old(stack), above, JsonTypes.EndObject(memberCount))
    {
      hide Xor, Hash, Popped;
      var h := Hash(0, OBJECT_TYPE);
      var base := |stack| - Popped(memberCount);
      var kv := stack[base..];
      stack := stack[..base];
      var i := 0;
      while i < memberCount
        invariant 0 <= i <= memberCount
        invariant FoldPairs(h, kv, above, i, memberCount) == FoldPairs(Hash(0, OBJECT_TYPE), kv, above, 0, memberCount)
      {
        h := Xor(h, Hash(WordAt(kv, above, Popped(i)), WordAt(kv, above, Popped(i) + 1)));
        i := i + 1;
      }
      stack := stack + [h];
    }

    method EndArray(elementCount: nat)
      requires elementCount <= |stack|
      modifies this
      ensures forall above :: stack == Hashed(image, old(stack), above, JsonTypes.EndArray(elementCount))
    {
      hide Xor, Hash;
      var h := Hash(0, ARRAY_TYPE);
      var base := |stack| - elementCount;
      var e := stack[base..];
      stack := stack[..base];
      var i := 0;
      while i < elementCount
        invariant 0 <= i <= elementCount
        invariant FoldElements(h, e[i..]) == FoldElements(Hash(0, ARRAY_TYPE), e)
      {
        assert e[i..][1..] == e[i + 1..];
        h := Hash(h, e[i]);
        i := i + 1;
      }
      stack := stack + [h];
    }

    method Handle(e: Event, above: Memory)
      requires HasWords(stack, e) && (e.EndObject? ==> e.memberCount < SIZE_LIMIT)
      modifies this
      ensures stack == Hashed(image, old(stack), above, e)
    {
      hide Xor, Hash, HashBuffer;
      match e
      case Null => WriteBuffer(NULL_TYPE, []);
      case Bool(b) => WriteBuffer(if b then TRUE_TYPE else FALSE_TYPE, []);
      case Num(n) => WriteBuffer(NUMBER_TYPE, image(n));
      case String(s) => WriteBuffer(STRING_TYPE, StringData(s));
      case Key(s) => WriteBuffer(STRING_TYPE, StringData(s));
      case StartObject =>
      case StartArray =>
      case EndObject(n) => EndObject(n, above);
      case EndArray(n) => EndArray(n);
    }

    /**
     A value accepted by the hasher leaves one word, the hash of the value, exactly when its objects have
     fewer than 2^31 members and its arrays fewer than 2^32 elements, at any depth.
     */
    method HashValue(v: Value, memory: nat -> Memory)
      modifies this
      ensures stack == old(stack) + [HashOf(image, v)] <==> HashFits(v)
      ensures |stack| == |old(stack)| + 1 + HashSurplus(v)
    {
      hide HasWords, HashOf, Hashed, HashSurplus, HashFits;
      var events := Reported(v);
      ghost var left := ReplayHash(image, memory, stack, v, []);
      SurplusDecides(v);
      CountsAreShort(v);
      assert events + [] == events;
      var k := 0;
      while k < |events|
        invariant 0 <= k <= |events|
        invariant Hashing(image, memory, stack, events[k..]) == Hashes(old(stack) + left)
      {
        assert events[k..][1..] == events[k + 1..];
        Handle(events[k], memory(|events| - k));
        k := k + 1;
      }
    }
  }

  // ---- When the loop stays inside the stack -----------------------------------------------------

  /** All that the loop over `n` members reads was popped. */
  predicate ReadsInside(n: nat) {
    forall i :: 0 <= i < n ==> Popped(i) + 1 < Popped(n)
  }

  /** For every count that the parameter can hold: exactly below 2^31. */
  lemma LoopInside(n: nat)
    requires n < SIZE_LIMIT
    ensures ReadsInside(n) <==> 2 * n < SIZE_LIMIT
  {
    if 2 * n >= SIZE_LIMIT {
      assert Popped(SIZE_LIMIT / 2 - 1) + 1 == SIZE_LIMIT - 1;
    }
  }

  /** Then the loop combines the popped names and values. */
  lemma {:induction false} PairsAreMembers(h: Word, kv: Words, above: Memory, i: nat, n: nat)
    requires i <= n && 2 * n < SIZE_LIMIT && |kv| == 2 * n
    ensures FoldPairs(h, kv, above, i, n) == FoldMembers(h, kv[2 * i..])
    decreases n - i
  {
    hide Xor, Hash, Popped, WordAt;
    if i < n {
      PairAt(kv, above, i);
      assert kv[2 * i..][2..] == kv[2 * (i + 1)..];
      PairsAreMembers(Xor(h, Hash(kv[2 * i], kv[2 * i + 1])), kv, above, i + 1, n);
    } else {
      assert kv[2 * i..] == [];
    }
  }

  lemma PairAt(kv: Words, above: Memory, i: nat)
    requires 2 * i + 1 < |kv| < SIZE_LIMIT
    ensures WordAt(kv, above, Popped(i)) == kv[2 * i] == kv[2 * i..][0]
    ensures WordAt(kv, above, Popped(i) + 1) == kv[2 * i + 1] == kv[2 * i..][1]
  {
  }

  // ---- The values that are hashed rightly -------------------------------------------------------

  predicate HashFits(v: Value) {
    match v
    case ObjectValue(ms) => 2 * |ms| < SIZE_LIMIT && HashMembersFit(ms)
    case ArrayValue(es) => |es| < SIZE_LIMIT && HashElementsFit(es)
    case _ => true
  }

  predicate HashMembersFit(ms: seq<Member>) {
    ms == [] || (HashFits(ms[0].value) && HashMembersFit(ms[1..]))
  }

  predicate HashElementsFit(es: seq<Value>) {
    es == [] || (HashFits(es[0]) && HashElementsFit(es[1..]))
  }

  /** The words too many that are left. */
  function HashSurplus(v: Value): nat {
    match v
    case ObjectValue(ms) => 2 * |ms| - Popped(|ms|) + HashMembersSurplus(ms)
    case ArrayValue(es) => |es| - Shown(|es|) + HashElementsSurplus(es)
    case _ => 0
  }

  function HashMembersSurplus(ms: seq<Member>): nat {
    if ms == [] then 0 else HashSurplus(ms[0].value) + HashMembersSurplus(ms[1..])
  }

  function HashElementsSurplus(es: seq<Value>): nat {
    if es == [] then 0 else HashSurplus(es[0]) + HashElementsSurplus(es[1..])
  }

  lemma {:induction false} SurplusDecides(v: Value)
    ensures HashSurplus(v) == 0 <==> HashFits(v)
    decreases v, 1
  {
    hide HashMembersFit, HashElementsFit, HashMembersSurplus, HashElementsSurplus;
    match v
    case ObjectValue(ms) => MembersSurplusDecides(ms);
    case ArrayValue(es) => ElementsSurplusDecides(es);
    case _ =>
  }

  lemma {:induction false} MembersSurplusDecides(ms: seq<Member>)
    ensures HashMembersSurplus(ms) == 0 <==> HashMembersFit(ms)
    decreases ms, 0
  {
    hide HashFits, HashSurplus;
    if ms != [] {
      SurplusDecides(ms[0].value);
      MembersSurplusDecides(ms[1..]);
    }
  }

  lemma {:induction false} ElementsSurplusDecides(es: seq<Value>)
    ensures HashElementsSurplus(es) == 0 <==> HashElementsFit(es)
    decreases es, 0
  {
    hide HashFits, HashSurplus;
    if es != [] {
      SurplusDecides(es[0]);
      ElementsSurplusDecides(es[1..]);
    }
  }

  /** The count of an event fits its parameter. */
  predicate Short(e: Event) {
    e.EndObject? ==> e.memberCount < SIZE_LIMIT
  }

  lemma {:induction false} CountsAreShort(v: Value)
    ensures forall k :: 0 <= k < |Reported(v)| ==> Short(Reported(v)[k])
    decreases v, 1
  {
    hide ReportedMembers, ReportedElements;
    match v
    case ObjectValue(ms) => MembersAreShort(ms);
    case ArrayValue(es) => ElementsAreShort(es);
    case _ =>
  }

  lemma {:induction false} MembersAreShort(ms: seq<Member>)
    ensures forall k :: 0 <= k < |ReportedMembers(ms)| ==> Short(ReportedMembers(ms)[k])
    decreases ms, 0
  {
    hide Reported, Short;
    if ms != [] {
      KeyIsShort(ms[0].name);
      CountsAreShort(ms[0].value);
      MembersAreShort(ms[1..]);
    }
  }

  lemma KeyIsShort(name: string)
    ensures Short(Key(name))
  {
  }

  lemma {:induction false} ElementsAreShort(es: seq<Value>)
    ensures forall k :: 0 <= k < |ReportedElements(es)| ==> Short(ReportedElements(es)[k])
    decreases es, 0
  {
    hide Reported, Short;
    if es != [] {
      CountsAreShort(es[0]);
      ElementsAreShort(es[1..]);
    }
  }

  // ---- The machine computes the hash ------------------------------------------------------------

  /**
   The events of any value, with its counts in 32 bits, leave `1 + HashSurplus(v)` words on any stack: the
   hash of the value, whatever is in memory above the stack, if they all fit.
   */
  lemma {:induction false} ReplayHash(image: Image, memory: nat -> Memory, stack: Words, v: Value, rest: seq<Event>)
    returns (left: Words)
    ensures Hashing(image, memory, stack, Reported(v) + rest) == Hashing(image, memory, stack + left, rest)
    ensures |left| == 1 + HashSurplus(v) && (HashFits(v) ==> left == [HashOf(image, v)])
    decreases v, 1
  {
    hide Hashed, Hashing, HasWords, HashOf, HashMembersFit, HashElementsFit, HashMembersSurplus, HashElementsSurplus;
    hide ReportedMembers, ReportedElements, Popped, Shown;
    match v
    case ObjectValue(ms) =>
      var close := EndObject(Shown(|ms|));
      BracketsOnly(image, stack);
      Regroup([StartObject], ReportedMembers(ms), [close], rest);
      ReplayFirst(image, memory, stack, StartObject, ReportedMembers(ms) + ([close] + rest));
      var words := ReplayMembers(image, memory, stack, ms, [close] + rest);
      left := ReplayEndObject(image, memory, stack, words, ms, rest);
    case ArrayValue(es) =>
      var close := EndArray(Shown(|es|));
      BracketsOnly(image, stack);
      Regroup([StartArray], ReportedElements(es), [close], rest);
      ReplayFirst(image, memory, stack, StartArray, ReportedElements(es) + ([close] + rest));
      var words := ReplayElements(image, memory, stack, es, [close] + rest);
      left := ReplayEndArray(image, memory, stack, words, es, rest);
    case _ =>
      left := [HashOf(image, v)];
      ScalarHashed(image, stack, v);
      ReplayFirst(image, memory, stack, Accept(v)[0], rest);
      assert Accept(v) == [Accept(v)[0]];
  }

  /** Nothing is pushed at the beginning of an object or an array. */
  lemma BracketsOnly(image: Image, stack: Words)
    ensures HasWords(stack, StartObject) && forall above :: Hashed(image, stack, above, StartObject) == stack
    ensures HasWords(stack, StartArray) && forall above :: Hashed(image, stack, above, StartArray) == stack
  {
  }

  lemma ScalarHashed(image: Image, stack: Words, v: Value)
    requires !v.ObjectValue? && !v.ArrayValue?
    ensures |Accept(v)| == 1 && HasWords(stack, Accept(v)[0])
    ensures forall above :: Hashed(image, stack, above, Accept(v)[0]) == stack + [HashOf(image, v)]
  {
    hide HashBuffer, HashString;
  }

  lemma ReplayFirst(image: Image, memory: nat -> Memory, stack: Words, e: Event, rest: seq<Event>)
    requires HasWords(stack, e)
    ensures Hashing(image, memory, stack, [e] + rest) ==
              Hashing(image, memory, Hashed(image, stack, memory(1 + |rest|), e), rest)
  {
    hide Hashed, HasWords;
    assert ([e] + rest)[1..] == rest;
  }

  /** What the members leave on the stack. */
  function MemberWords(image: Image, ms: seq<Member>): Words {
    if ms == [] then [] else [HashString(ms[0].name), HashOf(image, ms[0].value)] + MemberWords(image, ms[1..])
  }

  function ElementWords(image: Image, es: seq<Value>): Words {
    if es == [] then [] else [HashOf(image, es[0])] + ElementWords(image, es[1..])
  }

  lemma XorAssociates(a: Word, b: Word, c: Word)
    ensures Xor(Xor(a, b), c) == Xor(a, Xor(b, c))
  {
  }

  lemma XorSwaps(a: Word, b: Word, c: Word)
    ensures Xor(a, Xor(b, c)) == Xor(b, Xor(a, c))
  {
  }

  lemma XorZero(a: Word)
    ensures Xor(a, 0) == a
  {
  }

  lemma {:induction false} FoldMemberWords(image: Image, h: Word, ms: seq<Member>)
    ensures |MemberWords(image, ms)| == 2 * |ms|
    ensures FoldMembers(h, MemberWords(image, ms)) == Xor(h, HashMembers(image, ms))
    decreases |ms|
  {
    hide Xor, Hash, HashString, HashOf;
    if ms == [] {
      XorZero(h);
    } else {
      var w := HashMember(image, ms[0]);
      var words := MemberWords(image, ms);
      assert words[2..] == MemberWords(image, ms[1..]);
      FoldMemberWords(image, Xor(h, w), ms[1..]);
      XorAssociates(h, w, HashMembers(image, ms[1..]));
    }
  }

  lemma {:induction false} FoldElementWords(image: Image, h: Word, es: seq<Value>)
    ensures |ElementWords(image, es)| == |es|
    ensures FoldElements(h, ElementWords(image, es)) == HashElements(image, h, es)
    decreases |es|
  {
    hide Xor, Hash, HashOf;
    if es != [] {
      var words := ElementWords(image, es);
      assert words[1..] == ElementWords(image, es[1..]);
      FoldElementWords(image, Hash(h, HashOf(image, es[0])), es[1..]);
    }
  }

  /** The end of an object, `words` being what its members have left. */
  lemma ReplayEndObject(image: Image, memory: nat -> Memory, stack: Words,
                        words: Words, ms: seq<Member>, rest: seq<Event>)
    returns (left: Words)
    requires |words| == 2 * |ms| + HashMembersSurplus(ms)
    requires HashMembersFit(ms) ==> words == MemberWords(image, ms)
    ensures Hashing(image, memory, stack + words, [EndObject(Shown(|ms|))] + rest) ==
              Hashing(image, memory, stack + left, rest)
    ensures |left| == 1 + HashSurplus(ObjectValue(ms))
    ensures HashFits(ObjectValue(ms)) ==> left == [HashOf(image, ObjectValue(ms))]
  {
    hide Xor, Hash, Hashing, FoldPairs, MemberWords, HashMembersFit, HashMembersSurplus;
    var n, above := Shown(|ms|), memory(1 + |rest|);
    ShownPopped(|ms|);
    var base := |words| - Popped(n);
    left := words[..base] + [FoldPairs(Hash(0, OBJECT_TYPE), words[base..], above, 0, n)];
    var full := stack + words;
    assert full[..|stack| + base] == stack + words[..base] && full[|stack| + base..] == words[base..];
    assert stack + words[..base] + [left[base]] == stack + left;
    ReplayFirst(image, memory, full, EndObject(n), rest);
    if HashFits(ObjectValue(ms)) {
      SurplusDecides(ObjectValue(ms));
      FoldMemberWords(image, Hash(0, OBJECT_TYPE), ms);
      PairsAreMembers(Hash(0, OBJECT_TYPE), words, above, 0, n);
      assert base == 0 && words[0..] == words;
    }
  }

  lemma ShownPopped(n: nat)
    ensures Popped(Shown(n)) == Popped(n) <= 2 * n
    ensures 2 * n < SIZE_LIMIT ==> Shown(n) == n && Popped(n) == 2 * n
  {
    assert 2 * n == 2 * (n % SIZE_LIMIT) + SIZE_LIMIT * (2 * (n / SIZE_LIMIT));
    SameRemainder(2 * (n % SIZE_LIMIT), 2 * (n / SIZE_LIMIT));
  }

  lemma SameRemainder(a: nat, k: nat)
    ensures (a + SIZE_LIMIT * k) % SIZE_LIMIT == a % SIZE_LIMIT
  {
  }

  lemma ReplayEndArray(image: Image, memory: nat -> Memory, stack: Words,
                       words: Words, es: seq<Value>, rest: seq<Event>)
    returns (left: Words)
    requires |words| == |es| + HashElementsSurplus(es)
    requires HashElementsFit(es) ==> words == ElementWords(image, es)
    ensures Hashing(image, memory, stack + words, [EndArray(Shown(|es|))] + rest) ==
              Hashing(image, memory, stack + left, rest)
    ensures |left| == 1 + HashSurplus(ArrayValue(es))
    ensures HashFits(ArrayValue(es)) ==> left == [HashOf(image, ArrayValue(es))]
  {
    hide Xor, Hash, Hashing, FoldElements, ElementWords, HashElementsFit, HashElementsSurplus;
    var n := Shown(|es|);
    var base := |words| - n;
    left := words[..base] + [FoldElements(Hash(0, ARRAY_TYPE), words[base..])];
    var full := stack + words;
    assert full[..|stack| + base] == stack + words[..base] && full[|stack| + base..] == words[base..];
    assert stack + words[..base] + [left[base]] == stack + left;
    ReplayFirst(image, memory, full, EndArray(n), rest);
    if HashFits(ArrayValue(es)) {
      SurplusDecides(ArrayValue(es));
      FoldElementWords(image, Hash(0, ARRAY_TYPE), es);
      assert base == 0 && words[0..] == words;
    }
  }

  lemma {:induction false} ReplayMembers(image: Image, memory: nat -> Memory, stack: Words,
                                         ms: seq<Member>, rest: seq<Event>)
    returns (words: Words)
    ensures Hashing(image, memory, stack, ReportedMembers(ms) + rest) == Hashing(image, memory, stack + words, rest)
    ensures |words| == 2 * |ms| + HashMembersSurplus(ms)
    ensures HashMembersFit(ms) ==> words == MemberWords(image, ms)
    decreases ms, 0
  {
    hide Xor, Hash, HashString, HashOf, Hashing, Reported, HashFits, HashSurplus;
    if ms == [] {
      words := [];
      assert ReportedMembers(ms) + rest == rest && stack + words == stack;
    } else {
      var after := ReportedMembers(ms[1..]) + rest;
      var name, v := HashString(ms[0].name), ms[0].value;
      Regroup([Key(ms[0].name)], Reported(v), ReportedMembers(ms[1..]), rest);
      ReplayFirst(image, memory, stack, Key(ms[0].name), Reported(v) + after);
      var left := ReplayHash(image, memory, stack + [name], v, after);
      var more := ReplayMembers(image, memory, stack + [name] + left, ms[1..], rest);
      words := [name] + (left + more);
      Regroup(stack, [name], left, more);
      assert HashMembersFit(ms) ==> [name] + ([HashOf(image, v)] + more) == [name, HashOf(image, v)] + more;
    }
  }

  lemma {:induction false} ReplayElements(image: Image, memory: nat -> Memory, stack: Words,
                                          es: seq<Value>, rest: seq<Event>)
    returns (words: Words)
    ensures Hashing(image, memory, stack, ReportedElements(es) + rest) == Hashing(image, memory, stack + words, rest)
    ensures |words| == |es| + HashElementsSurplus(es)
    ensures HashElementsFit(es) ==> words == ElementWords(image, es)
    decreases es, 0
  {
    hide Xor, Hash, HashOf, Hashing, Reported, HashFits, HashSurplus;
    if es == [] {
      words := [];
      assert ReportedElements(es) + rest == rest && stack + words == stack;
    } else {
      var after := ReportedElements(es[1..]) + rest;
      assert ReportedElements(es) + rest == Reported(es[0]) + after;
      var left := ReplayHash(image, memory, stack, es[0], after);
      var more := ReplayElements(image, memory, stack + left, es[1..], rest);
      words := left + more;
      assert stack + left + more == stack + words;
    }
  }

  /**
   Of every value whose counts their 32-bit type can hold, exactly those with fewer than 2^31 members in
   each object leave one word; that word is then the hash, and the loops read nothing outside the stack.
   */
  lemma HashLeavesOne(image: Image, memory: nat -> Memory, v: Value)
    requires CountsFit(v)
    ensures Hashing(image, memory, [], Accept(v)).Hashes?
    ensures |Hashing(image, memory, [], Accept(v)).stack| == 1 + HashSurplus(v)
    ensures Hashing(image, memory, [], Accept(v)) == Hashes([HashOf(image, v)]) <==> HashFits(v)
  {
    hide Hashed, HasWords, HashOf, HashSurplus, HashFits, Reported, CountsFit;
    FitLeavesOne(v);
    SurplusDecides(v);
    var left := ReplayHash(image, memory, [], v, []);
    assert Accept(v) + [] == Accept(v) && [] + left == left;
  }

  function NullMembers(n: nat): (ms: seq<Member>)
    ensures |ms| == n
  {
    if n == 0 then [] else [Member("", NullValue)] + NullMembers(n - 1)
  }

  lemma {:induction false} NullMembersFit(n: nat)
    ensures HashMembersSurplus(NullMembers(n)) == 0 && MembersFit(NullMembers(n))
    decreases n
  {
    if n > 0 {
      NullMembersFit(n - 1);
      assert NullMembers(n)[1..] == NullMembers(n - 1);
    }
  }

  /** An object of 2^31 members: nothing is popped, the loop reads beyond the stack, and 2^32 + 1 words are left. */
  lemma TooManyMembers(image: Image, memory: nat -> Memory)
    ensures var v, n := ObjectValue(NullMembers(SIZE_LIMIT / 2)), SIZE_LIMIT / 2;
            && Popped(n) == 0 && !ReadsInside(n) && !HashFits(v)
            && Hashing(image, memory, [], Accept(v)).Hashes?
            && |Hashing(image, memory, [], Accept(v)).stack| == SIZE_LIMIT + 1
  {
    hide Hashing, NullMembers, HashMembersSurplus, MembersFit, ReadsInside;
    NullMembersFit(SIZE_LIMIT / 2);
    LoopInside(SIZE_LIMIT / 2);
    HashLeavesOne(image, memory, ObjectValue(NullMembers(SIZE_LIMIT / 2)));
  }

  // ---- Order ------------------------------------------------------------------------------------

  /** The same value with the members of its objects in some other order, at any depth. */
  ghost predicate Reordered(v: Value, w: Value)
    decreases v, 1
  {
    match v
    case ObjectValue(ms) => w.ObjectValue? && ReorderedMembers(ms, w.members)
    case ArrayValue(es) => w.ArrayValue? && ReorderedElements(es, w.elements)
    case _ => v == w
  }

  function Without(ms: seq<Member>, j: nat): seq<Member>
    requires j < |ms|
  {
    ms[..j] + ms[j + 1..]
  }

  /** The first member is somewhere among the others, and the rest are a reordering of what is left. */
  ghost predicate ReorderedMembers(ms: seq<Member>, ns: seq<Member>)
    decreases ms, 0
  {
    if ms == [] then ns == []
    else exists j | 0 <= j < |ns| ::
        ns[j].name == ms[0].name && Reordered(ms[0].value, ns[j].value) && ReorderedMembers(ms[1..], Without(ns, j))
  }

  ghost predicate ReorderedElements(es: seq<Value>, fs: seq<Value>)
    decreases es, 0
  {
    if es == [] then fs == []
    else fs != [] && Reordered(es[0], fs[0]) && ReorderedElements(es[1..], fs[1..])
  }

  /** The hash does not depend on the order of object members, at any depth. */
  lemma {:induction false} ReorderedHash(image: Image, v: Value, w: Value)
    requires Reordered(v, w)
    ensures HashOf(image, v) == HashOf(image, w)
    decreases v, 1
  {
    hide Xor, Hash, HashString, HashBuffer;
    match v
    case ObjectValue(ms) => ReorderedMembersHash(image, ms, w.members);
    case ArrayValue(es) => ReorderedElementsHash(image, Hash(0, ARRAY_TYPE), es, w.elements);
    case _ =>
  }

  lemma {:induction false} ReorderedMembersHash(image: Image, ms: seq<Member>, ns: seq<Member>)
    requires ReorderedMembers(ms, ns)
    ensures HashMembers(image, ms) == HashMembers(image, ns)
    decreases ms, 0
  {
    hide Xor, Hash, HashString, HashOf, Reordered;
    if ms != [] {
      var j :| 0 <= j < |ns| && ns[j].name == ms[0].name && Reordered(ms[0].value, ns[j].value) &&
          ReorderedMembers(ms[1..], Without(ns, j));
      ReorderedHash(image, ms[0].value, ns[j].value);
      ReorderedMembersHash(image, ms[1..], Without(ns, j));
      TakenOut(image, ns, j);
    }
  }

  /** Any member can be taken out of the exclusive or first. */
  lemma {:induction false} TakenOut(image: Image, ns: seq<Member>, j: nat)
    requires j < |ns|
    ensures HashMembers(image, ns) == Xor(HashMember(image, ns[j]), HashMembers(image, Without(ns, j)))
    decreases j
  {
    hide HashMember, Xor;
    if j == 0 {
      assert Without(ns, 0) == ns[1..];
    } else {
      TakenOut(image, ns[1..], j - 1);
      var rest := Without(ns[1..], j - 1);
      assert Without(ns, j) == [ns[0]] + rest;
      XorSwaps(HashMember(image, ns[0]), HashMember(image, ns[j]), HashMembers(image, rest));
    }
  }

  lemma {:induction false} ReorderedElementsHash(image: Image, h: Word, es: seq<Value>, fs: seq<Value>)
    requires ReorderedElements(es, fs)
    ensures HashElements(image, h, es) == HashElements(image, h, fs)
    decreases es, 0
  {
    hide Xor, Hash, HashOf, Reordered;
    if es != [] {
      ReorderedHash(image, es[0], fs[0]);
      ReorderedElementsHash(image, Hash(h, HashOf(image, es[0])), es[1..], fs[1..]);
    }
  }

  lemma {:induction false} ReorderedSelf(v: Value)
    ensures Reordered(v, v)
    decreases v, 1
  {
    match v
    case ObjectValue(ms) => ReorderedMembersSelf(ms);
    case ArrayValue(es) => ReorderedElementsSelf(es);
    case _ =>
  }

  lemma {:induction false} ReorderedMembersSelf(ms: seq<Member>)
    ensures ReorderedMembers(ms, ms)
    decreases ms, 0
  {
    if ms != [] {
      ReorderedSelf(ms[0].value);
      ReorderedMembersSelf(ms[1..]);
      assert Without(ms, 0) == ms[1..];
    }
  }

  lemma {:induction false} ReorderedElementsSelf(es: seq<Value>)
    ensures ReorderedElements(es, es)
    decreases es, 0
  {
    if es != [] {
      ReorderedSelf(es[0]);
      ReorderedElementsSelf(es[1..]);
    }
  }

  lemma FindFirst(ms: seq<Member>, ns: seq<Member>) returns (j: nat)
    requires multiset(ms) == multiset(ns) && ms != []
    ensures j < |ns| && ns[j] == ms[0] && multiset(ms[1..]) == multiset(Without(ns, j))
  {
    assert ms[0] in multiset(ns);
    j :| 0 <= j < |ns| && ns[j] == ms[0];
    assert ms == [ms[0]] + ms[1..];
    assert multiset(ms[1..]) == multiset(ms) - multiset{ms[0]};
    WithoutOne(ns, j);
  }

  lemma WithoutOne(ns: seq<Member>, j: nat)
    requires j < |ns|
    ensures multiset(Without(ns, j)) == multiset(ns) - multiset{ns[j]}
  {
    assert ns == ns[..j] + ([ns[j]] + ns[j + 1..]);
  }

  /** Any permutation of the members is such a reordering. */
  lemma {:induction false} PermutationReorders(ms: seq<Member>, ns: seq<Member>)
    requires multiset(ms) == multiset(ns)
    ensures ReorderedMembers(ms, ns)
    decreases |ms|
  {
    hide Without, Reordered;
    if ms == [] {
      assert |multiset(ns)| == |ns|;
    } else {
      var j := FindFirst(ms, ns);
      ReorderedSelf(ms[0].value);
      PermutationReorders(ms[1..], Without(ns, j));
    }
  }

  // ---- One change is seen -----------------------------------------------------------------------

  /** Multiplication by the inverse of the prime, modulo 2^64. */
  function Undone(r: Word): Word {
    r * 0xCE96_5057_AFF6_957B
  }

  lemma PrimeIs(x: Word)
    ensures TimesPrime(x) == x * 0x0000_0100_0000_01B3
  {
  }

  lemma ProductUndone(x: Word)
    ensures Undone(x * 0x0000_0100_0000_01B3) == x
  {
  }

  /** Multiplication by the prime loses nothing, because the prime is odd. */
  lemma PrimeUndone(x: Word)
    ensures Undone(TimesPrime(x)) == x
  {
    hide Undone, TimesPrime;
    PrimeIs(x);
    ProductUndone(x);
  }

  lemma XorApart(a: Word, b: Word, c: Word)
    ensures Xor(a, b) == Xor(a, c) <==> b == c
    ensures Xor(b, a) == Xor(c, a) <==> b == c
  {
  }

  /** Each of the two words that are hashed decides the hash when the other is given. */
  lemma HashApart(h: Word, d: Word, e: Word)
    ensures Hash(h, d) == Hash(h, e) <==> d == e
    ensures Hash(d, h) == Hash(e, h) <==> d == e
  {
    hide Xor, TimesPrime, Undone;
    XorApart(h, d, e);
    PrimeUndone(Xor(h, d));
    PrimeUndone(Xor(h, e));
    PrimeUndone(Xor(d, h));
    PrimeUndone(Xor(e, h));
  }

  lemma {:induction false} ElementsApart(image: Image, h: Word, k: Word, es: seq<Value>)
    ensures HashElements(image, h, es) == HashElements(image, k, es) <==> h == k
    decreases |es|
  {
    hide Hash, HashOf;
    if es != [] {
      var d := HashOf(image, es[0]);
      HashApart(d, h, k);
      ElementsApart(image, Hash(h, d), Hash(k, d), es[1..]);
    }
  }

  /** An array with one element changed hashes as before exactly if that element does. */
  lemma {:induction false} ElementChanged(image: Image, h: Word, es: seq<Value>, i: nat, w: Value)
    requires i < |es|
    ensures HashElements(image, h, es[i := w]) == HashElements(image, h, es) <==>
            HashOf(image, w) == HashOf(image, es[i])
    decreases i
  {
    hide Hash, HashOf;
    var fs := es[i := w];
    if i == 0 {
      assert fs[1..] == es[1..];
      HashApart(h, HashOf(image, w), HashOf(image, es[0]));
      ElementsApart(image, Hash(h, HashOf(image, w)), Hash(h, HashOf(image, es[0])), es[1..]);
    } else {
      assert fs[1..] == es[1..][i - 1 := w];
      ElementChanged(image, Hash(h, HashOf(image, es[0])), es[1..], i - 1, w);
    }
  }

  /** An object with the value of one member changed hashes as before exactly if that value does. */
  lemma MemberChanged(image: Image, ms: seq<Member>, j: nat, w: Value)
    requires j < |ms|
    ensures HashMembers(image, ms[j := Member(ms[j].name, w)]) == HashMembers(image, ms) <==>
            HashOf(image, w) == HashOf(image, ms[j].value)
  {
    hide HashMembers, Hash, HashOf, HashString, Xor;
    var ns := ms[j := Member(ms[j].name, w)];
    TakenOut(image, ms, j);
    TakenOut(image, ns, j);
    assert Without(ns, j) == Without(ms, j);
    XorApart(HashMembers(image, Without(ms, j)), HashMember(image, ns[j]), HashMember(image, ms[j]));
    HashApart(HashString(ms[j].name), HashOf(image, w), HashOf(image, ms[j].value));
  }

  /** So one change of an element's hash, or of one member value's, changes the hash of the whole. */
  lemma ChangeIsSeen(image: Image, v: Value, i: nat, w: Value)
    requires (v.ArrayValue? && i < |v.elements|) || (v.ObjectValue? && i < |v.members|)
    ensures var child := if v.ArrayValue? then v.elements[i] else v.members[i].value;
            var changed := if v.ArrayValue? then ArrayValue(v.elements[i := w])
                           else ObjectValue(v.members[i := Member(v.members[i].name, w)]);
            HashOf(image, changed) == HashOf(image, v) <==> HashOf(image, w) == HashOf(image, child)
  {
    hide Hash, HashElements, HashMembers, Xor;
    if v.ArrayValue? {
      ElementChanged(image, Hash(0, ARRAY_TYPE), v.elements, i, w);
    } else {
      var ns := v.members[i := Member(v.members[i].name, w)];
      MemberChanged(image, v.members, i, w);
      XorApart(Hash(0, OBJECT_TYPE), HashMembers(image, ns), HashMembers(image, v.members));
    }
  }
}
