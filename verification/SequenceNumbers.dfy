/** Sequence number accounting of the preprocessor (base/src/preprocessor.c:59-184,
    590-628; section 3.1 of RFC 7011), modulo 2^32.

    Several inputs may carry the same source.  Each source (exporter and observation
    domain) has one counter, kept in a list; each input has the number it expects
    next.  A message's header is rewritten to its source's counter. */
module SequenceNumbers {
  import opened Common

  const MODULUS: nat := 0x1_0000_0000

  datatype Key = Key(exporter: nat, odid: nat)

  /** A message as it arrives: its input, source, header number and data records. */
  datatype Message = Message(input: nat, key: Key, number: nat, records: nat)

  datatype Counter = Counter(key: Key, value: nat)

  /** A message and the number its header was rewritten to. */
  datatype Sent = Sent(message: Message, number: nat)

  datatype State = State(counters: seq<Counter>, inputs: seq<nat>, sent: seq<Sent>)

  function Start(inputs: nat): State {
    State([], seq(inputs, _ => 0), [])
  }

  function Find(counters: seq<Counter>, key: Key): (i: Option<nat>)
    ensures i.Some? ==> i.value < |counters| && counters[i.value].key == key
    ensures i.None? ==> forall c <- counters :: c.key != key
  {
    if counters == [] then None
    else if counters[0].key == key then Some(0)
    else
      var i := Find(counters[1..], key);
      if i.None? then None else Some(i.value + 1)
  }

  /** A new source goes behind the first one, with a zero counter. */
  function Added(counters: seq<Counter>, key: Key): seq<Counter> {
    if Find(counters, key).Some? then counters
    else if counters == [] then [Counter(key, 0)]
    else [counters[0], Counter(key, 0)] + counters[1..]
  }

  function Value(counters: seq<Counter>, key: Key): nat {
    var i := Find(counters, key);
    if i.None? then 0 else counters[i.value].value
  }

  /** 32-bit `c + number - expected`. */
  function Corrected(c: nat, number: nat, expected: nat): (r: nat)
    ensures r < MODULUS
  {
    (c + number - expected) % MODULUS
  }

  predicate Enabled(s: State, m: Message) {
    m.input < |s.inputs| && m.number < MODULUS
  }

  function Apply(s: State, m: Message): State
    requires Enabled(s, m)
  {
    var counters := Added(s.counters, m.key);
    var number := Corrected(Value(s.counters, m.key), m.number, s.inputs[m.input]);
    State(Set(counters, m.key, (number + m.records) % MODULUS),
          s.inputs[m.input := (m.number + m.records) % MODULUS],
          s.sent + [Sent(m, number)])
  }

  function Set(counters: seq<Counter>, key: Key, value: nat): seq<Counter> {
    var i := Find(counters, key);
    if i.None? then counters else counters[i.value := Counter(key, value)]
  }

  ghost predicate Executable(s: State, messages: seq<Message>)
    decreases |messages|
  {
    messages == [] || (Enabled(s, messages[0]) && Executable(Apply(s, messages[0]), messages[1..]))
  }

  ghost function Run(s: State, messages: seq<Message>): State
    requires Executable(s, messages)
    decreases |messages|
  {
    if messages == [] then s else Run(Apply(s, messages[0]), messages[1..])
  }

  // --------------------------------------------------- what the history says

  /** The number an input expects next: its last message's and its records. */
  function Expected(sent: seq<Sent>, input: nat): nat {
    if sent == [] then 0
    else
      var last := sent[|sent| - 1].message;
      if last.input == input then (last.number + last.records) % MODULUS
      else Expected(sent[..|sent| - 1], input)
  }

  /** The number a source's next message follows on from. */
  function Continued(sent: seq<Sent>, key: Key): nat {
    if sent == [] then 0
    else
      var last := sent[|sent| - 1];
      if last.message.key == key then (last.number + last.message.records) % MODULUS
      else Continued(sent[..|sent| - 1], key)
  }

  /** The records the input lost before message `k`. */
  function Gap(sent: seq<Sent>, k: nat): (gap: nat)
    requires k < |sent|
    ensures gap < MODULUS
  {
    (sent[k].message.number - Expected(sent[..k], sent[k].message.input)) % MODULUS
  }

  ghost predicate Unique(counters: seq<Counter>) {
    forall i, j :: 0 <= i < j < |counters| ==> counters[i].key != counters[j].key
  }

  lemma {:induction false} FindUnique(counters: seq<Counter>, i: nat)
    requires Unique(counters) && i < |counters|
    ensures Find(counters, counters[i].key) == Some(i)
    decreases i
  {
    if i > 0 {
      FindUnique(counters[1..], i - 1);
    }
  }

  lemma AddedUnique(counters: seq<Counter>, key: Key)
    requires Unique(counters)
    ensures Unique(Added(counters, key)) && Find(Added(counters, key), key).Some?
    ensures forall k :: Value(Added(counters, key), k) == Value(counters, k)
    ensures Sum(Added(counters, key)) == Sum(counters)
  {
    var t := Added(counters, key);
    if Find(counters, key).None? && counters != [] {
      assert t[1..] == [Counter(key, 0)] + counters[1..];
      assert t[1..][1..] == counters[1..];
      forall i, j | 0 <= i < j < |t|
        ensures t[i].key != t[j].key
      {
        assert i >= 2 ==> t[i] == counters[i - 1];
        assert j >= 2 ==> t[j] == counters[j - 1];
      }
    }
  }

  function Sum(counters: seq<Counter>): nat {
    if counters == [] then 0 else counters[0].value + Sum(counters[1..])
  }

  function SumOf(numbers: seq<nat>): nat {
    if numbers == [] then 0 else numbers[0] + SumOf(numbers[1..])
  }

  lemma {:induction false} SumUpdate(counters: seq<Counter>, i: nat, c: Counter)
    requires i < |counters|
    ensures Sum(counters[i := c]) == Sum(counters) - counters[i].value + c.value
    decreases i
  {
    if i > 0 {
      assert counters[i := c][1..] == counters[1..][i - 1 := c];
      SumUpdate(counters[1..], i - 1, c);
    } else {
      assert counters[i := c][1..] == counters[1..];
    }
  }

  lemma {:induction false} SumOfUpdate(numbers: seq<nat>, i: nat, n: nat)
    requires i < |numbers|
    ensures SumOf(numbers[i := n]) == SumOf(numbers) - numbers[i] + n
    decreases i
  {
    if i > 0 {
      assert numbers[i := n][1..] == numbers[1..][i - 1 := n];
      SumOfUpdate(numbers[1..], i - 1, n);
    } else {
      assert numbers[i := n][1..] == numbers[1..];
    }
  }

  lemma SetValue(counters: seq<Counter>, key: Key, value: nat)
    requires Unique(counters) && Find(counters, key).Some?
    ensures Unique(Set(counters, key, value))
    ensures forall k :: Value(Set(counters, key, value), k) == if k == key then value else Value(counters, k)
    ensures Sum(Set(counters, key, value)) == Sum(counters) - Value(counters, key) + value
  {
    var t, i := Set(counters, key, value), Find(counters, key).value;
    SumUpdate(counters, i, Counter(key, value));
    forall k
      ensures Value(t, k) == if k == key then value else Value(counters, k)
    {
      var a, b := Find(counters, k), Find(t, k);
      if b.Some? {
        FindUnique(counters, b.value);
      }
      if a.Some? {
        assert t[a.value].key == k;
        FindUnique(t, a.value);
      }
    }
  }

  lemma SetAt(counters: seq<Counter>, i: nat, value: nat)
    requires Unique(counters) && i < |counters|
    ensures Set(counters, counters[i].key, value) == counters[i := Counter(counters[i].key, value)]
    ensures Unique(Set(counters, counters[i].key, value))
  {
    FindUnique(counters, i);
  }

  // ----------------------------------------------------------- invariant

  ghost predicate Inv(s: State) {
    && Unique(s.counters)
    && (forall i :: 0 <= i < |s.inputs| ==> s.inputs[i] == Expected(s.sent, i))
    && (forall k :: Value(s.counters, k) == Continued(s.sent, k))
    && Sum(s.counters) % MODULUS == SumOf(s.inputs) % MODULUS
    && (forall k :: 0 <= k < |s.sent| ==> Follows(s.sent, k))
  }

  /** Message `k` continues its source's numbers, plus what its input lost. */
  predicate Follows(sent: seq<Sent>, k: nat)
    requires k < |sent|
  {
    sent[k].number == (Continued(sent[..k], sent[k].message.key) + Gap(sent, k)) % MODULUS
  }

  // --------------------------------------------------- every message keeps it

  lemma AddModulo(a: int, b: int, c: int)
    ensures ((a % MODULUS) + b) % MODULUS == (a + b) % MODULUS
    ensures (a + (b % MODULUS)) % MODULUS == (a + b) % MODULUS
  {
  }

  /** The counter and the input grow by the same amount. */
  lemma SameGrowth(sum: int, sumOf: int, c: nat, number: nat, expected: nat, records: nat)
    requires sum % MODULUS == sumOf % MODULUS
    ensures (sum - c + (Corrected(c, number, expected) + records) % MODULUS) % MODULUS
         == (sumOf - expected + (number + records) % MODULUS) % MODULUS
  {
    AddModulo(sum - c, Corrected(c, number, expected) + records, 0);
    AddModulo(c + number - expected, sum - c + records, 0);
    AddModulo(sumOf - expected, number + records, 0);
    AddModulo(sum, number - expected + records, 0);
    AddModulo(sumOf, number - expected + records, 0);
  }

  lemma SumKeeps(s: State, m: Message)
    requires Inv(s) && Enabled(s, m)
    ensures var t := Apply(s, m); Sum(t.counters) % MODULUS == SumOf(t.inputs) % MODULUS
  {
    var c, expected := Value(s.counters, m.key), s.inputs[m.input];
    var number := Corrected(c, m.number, expected);
    AddedUnique(s.counters, m.key);
    SetValue(Added(s.counters, m.key), m.key, (number + m.records) % MODULUS);
    SumOfUpdate(s.inputs, m.input, (m.number + m.records) % MODULUS);
    SameGrowth(Sum(s.counters), SumOf(s.inputs), c, m.number, expected, m.records);
  }

  lemma StepKeeps(s: State, m: Message)
    requires Inv(s) && Enabled(s, m)
    ensures Inv(Apply(s, m))
  {
    hide Sum;
    hide SumOf;
    var t := Apply(s, m);
    AddedUnique(s.counters, m.key);
    SetValue(Added(s.counters, m.key), m.key, (t.sent[|s.sent|].number + m.records) % MODULUS);
    SumKeeps(s, m);
    assert t.sent[..|s.sent|] == s.sent;
    forall k | 0 <= k < |t.sent|
      ensures Follows(t.sent, k)
    {
      assert t.sent[..k] == s.sent[..k];
      if k == |s.sent| {
        assert s.sent[..k] == s.sent;
        AddModulo(Continued(s.sent, m.key), m.number - Expected(s.sent, m.input), 0);
      } else {
        assert Follows(s.sent, k);
      }
    }
  }

  lemma {:induction false} RunKeeps(s: State, messages: seq<Message>)
    requires Inv(s) && Executable(s, messages)
    ensures Inv(Run(s, messages)) && |Run(s, messages).inputs| == |s.inputs|
    decreases |messages|
  {
    if messages != [] {
      StepKeeps(s, messages[0]);
      RunKeeps(Apply(s, messages[0]), messages[1..]);
    }
  }

  lemma {:induction false} StartInv(inputs: nat)
    ensures Inv(Start(inputs))
  {
    SumOfZeros(inputs);
  }

  lemma {:induction false} SumOfZeros(n: nat)
    ensures SumOf(seq<nat>(n, _ => 0)) == 0
  {
    if n > 0 {
      assert seq<nat>(n, _ => 0)[1..] == seq<nat>(n - 1, _ => 0);
      SumOfZeros(n - 1);
    }
  }

  // ------------------------------------------------------------ main results

  /** Conservation: after any run the counters of all sources and the numbers of all
      inputs have the same sum. */
  lemma Conservation(inputs: nat, messages: seq<Message>)
    requires Executable(Start(inputs), messages)
    ensures var s := Run(Start(inputs), messages); Sum(s.counters) % MODULUS == SumOf(s.inputs) % MODULUS
  {
    StartInv(inputs);
    RunKeeps(Start(inputs), messages);
  }

  /** Two messages of one source with none between: the second's number is the
      first's, plus its records, plus what the second's input lost before it. */
  lemma Consecutive(inputs: nat, messages: seq<Message>, j: nat, k: nat)
    requires Executable(Start(inputs), messages)
    requires var sent := Run(Start(inputs), messages).sent;
             && j < k < |sent| && sent[j].message.key == sent[k].message.key
             && forall i :: j < i < k ==> sent[i].message.key != sent[k].message.key
    ensures var sent := Run(Start(inputs), messages).sent;
            sent[k].number == (sent[j].number + sent[j].message.records + Gap(sent, k)) % MODULUS
  {
    StartInv(inputs);
    RunKeeps(Start(inputs), messages);
    var sent := Run(Start(inputs), messages).sent;
    assert Follows(sent, k);
    LastOfSource(sent, j, k);
    AddModulo(sent[j].number + sent[j].message.records, Gap(sent, k), 0);
  }

  lemma {:induction false} LastOfSource(sent: seq<Sent>, j: nat, k: nat)
    requires j < k <= |sent|
    requires forall i :: j < i < k ==> sent[i].message.key != sent[j].message.key
    ensures Continued(sent[..k], sent[j].message.key) == (sent[j].number + sent[j].message.records) % MODULUS
    decreases k
  {
    assert sent[..k][..k - 1] == sent[..k - 1];
    if j < k - 1 {
      LastOfSource(sent, j, k - 1);
    }
  }

  /** The first message of a source carries what its input lost. */
  lemma First(inputs: nat, messages: seq<Message>, k: nat)
    requires Executable(Start(inputs), messages)
    requires var sent := Run(Start(inputs), messages).sent;
             k < |sent| && forall i :: 0 <= i < k ==> sent[i].message.key != sent[k].message.key
    ensures var sent := Run(Start(inputs), messages).sent; sent[k].number == Gap(sent, k)
  {
    StartInv(inputs);
    RunKeeps(Start(inputs), messages);
    var sent := Run(Start(inputs), messages).sent;
    NoneOfSource(sent, sent[k].message.key, k);
    assert Follows(sent, k);
    hide Gap;
    hide Inv;
    assert sent[k].number == (0 + Gap(sent, k)) % MODULUS;
  }

  lemma {:induction false} NoneOfSource(sent: seq<Sent>, key: Key, k: nat)
    requires k <= |sent| && forall i :: 0 <= i < k ==> sent[i].message.key != key
    ensures Continued(sent[..k], key) == 0
    decreases k
  {
    if k > 0 {
      assert sent[..k][..k - 1] == sent[..k - 1];
      NoneOfSource(sent, key, k - 1);
    }
  }

  /** Input and source belong to each other alone. */
  ghost predicate Alone(messages: seq<Message>, input: nat, key: Key) {
    forall m <- messages :: m.input == input <==> m.key == key
  }

  /** Source and input in step, and all the source's messages unchanged so far. */
  ghost predicate InStep(s: State, input: nat, key: Key) {
    && input < |s.inputs| && Value(s.counters, key) == s.inputs[input] < MODULUS
    && (forall x <- s.sent :: x.message.key == key ==> x.number == x.message.number)
  }

  /** The counters after a message. */
  lemma CounterAfter(s: State, m: Message, key: Key)
    requires Unique(s.counters) && Enabled(s, m)
    ensures var number := Corrected(Value(s.counters, m.key), m.number, s.inputs[m.input]);
            Value(Apply(s, m).counters, key) ==
            if m.key == key then (number + m.records) % MODULUS else Value(s.counters, key)
  {
    hide Sum;
    hide Corrected;
    var number := Corrected(Value(s.counters, m.key), m.number, s.inputs[m.input]);
    AddedUnique(s.counters, m.key);
    SetValue(Added(s.counters, m.key), m.key, (number + m.records) % MODULUS);
  }

  lemma AloneStep(s: State, m: Message, input: nat, key: Key)
    requires Unique(s.counters) && Enabled(s, m) && (m.input == input <==> m.key == key) && InStep(s, input, key)
    ensures InStep(Apply(s, m), input, key)
  {
    hide Value;
    hide Set;
    hide Added;
    CounterAfter(s, m, key);
    if m.input == input {
      CorrectedSame(s.inputs[input], m.number);
    }
    hide Corrected;
  }

  lemma CorrectedSame(c: nat, number: nat)
    requires number < MODULUS
    ensures Corrected(c, number, c) == number
  {
  }

  /** A source alone on its key, from an input of its own, keeps its numbers. */
  lemma {:induction false} AloneKeeps(s: State, messages: seq<Message>, input: nat, key: Key)
    requires Inv(s) && Executable(s, messages) && Alone(messages, input, key) && InStep(s, input, key)
    ensures InStep(Run(s, messages), input, key)
    decreases |messages|
  {
    if messages != [] {
      assert Unique(s.counters);
      hide Inv;
      hide InStep;
      hide Apply;
      hide Enabled;
      assert messages[0] in messages && forall m <- messages[1..] :: m in messages;
      AloneStep(s, messages[0], input, key);
      StepKeeps(s, messages[0]);
      AloneKeeps(Apply(s, messages[0]), messages[1..], input, key);
    }
  }

  lemma SourceAloneKeepsNumbers(inputs: nat, messages: seq<Message>, input: nat, key: Key)
    requires Executable(Start(inputs), messages) && Alone(messages, input, key) && input < inputs
    ensures forall x <- Run(Start(inputs), messages).sent :: x.message.key == key ==> x.number == x.message.number
  {
    StartInv(inputs);
    AloneKeeps(Start(inputs), messages, input, key);
  }

  // ------------------------------------------------------------ the list

  /** `struct data_source_info`. */
  class SourceInfo {
    const key: Key
    var value: nat
    var next: SourceInfo?

    constructor (key: Key)
      ensures this.key == key && value == 0 && next == null
    {
      this.key, value, next := key, 0, null;
    }
  }

  ghost predicate Linked(infos: seq<SourceInfo>, first: SourceInfo?)
    reads infos`next
  {
    && first == (if infos == [] then null else infos[0])
    && (forall i {:trigger infos[i].next} :: 0 <= i < |infos| ==>
          infos[i].next == if i + 1 < |infos| then infos[i + 1] else null)
    && (forall i, j :: 0 <= i < j < |infos| ==> infos[i] != infos[j])
  }

  ghost function Counters(infos: seq<SourceInfo>): (counters: seq<Counter>)
    reads infos`value
    ensures |counters| == |infos|
  {
    if infos == [] then [] else [Counter(infos[0].key, infos[0].value)] + Counters(infos[1..])
  }

  lemma {:induction false} CountersAt(infos: seq<SourceInfo>, i: nat)
    requires i < |infos|
    ensures Counters(infos)[i] == Counter(infos[i].key, infos[i].value)
    decreases i
  {
    if i > 0 {
      CountersAt(infos[1..], i - 1);
    }
  }

  lemma CountersTwo(x: SourceInfo, y: SourceInfo, rest: seq<SourceInfo>)
    ensures Counters([x] + rest) == [Counter(x.key, x.value)] + Counters(rest)
    ensures Counters([x, y] + rest) == [Counter(x.key, x.value), Counter(y.key, y.value)] + Counters(rest)
  {
    assert ([x] + rest)[1..] == rest;
    assert ([x, y] + rest)[1..] == [y] + rest && ([y] + rest)[1..] == rest;
  }

  lemma {:induction false} CountersAll(infos: seq<SourceInfo>)
    ensures forall k :: 0 <= k < |infos| ==> Counters(infos)[k] == Counter(infos[k].key, infos[k].value)
  {
    forall k | 0 <= k < |infos|
      ensures Counters(infos)[k] == Counter(infos[k].key, infos[k].value)
    {
      CountersAt(infos, k);
    }
  }

  /** The sources and inputs, and the messages sent so far. */
  class Accounting {
    var first: SourceInfo?
    ghost var infos: seq<SourceInfo>
    var inputs: seq<nat>
    var sent: seq<Sent>

    ghost predicate Valid()
      reads this, infos`next, infos`value
    {
      Linked(infos, first) && Unique(Counters(infos)) && forall x <- infos :: x.value < MODULUS
    }

    ghost function Abstract(): State
      reads this, infos`value
    {
      State(Counters(infos), inputs, sent)
    }

    constructor (count: nat)
      ensures Valid() && Abstract() == Start(count)
    {
      first, infos, inputs, sent := null, [], seq(count, _ => 0), [];
    }

    /** `data_source_info_get`. */
    method Get(key: Key) returns (r: SourceInfo?)
      requires Valid()
      ensures r == null <==> Find(Counters(infos), key).None?
      ensures r != null ==> r in infos && r.key == key
    {
      r := first;
      ghost var i := 0;
      while r != null
        invariant i <= |infos|
        invariant r == if i < |infos| then infos[i] else null
        invariant forall k :: 0 <= k < i ==> infos[k].key != key
        decreases |infos| - i
      {
        if r.key == key {
          CountersAt(infos, i);
          FindUnique(Counters(infos), i);
          return;
        }
        r := r.next;
        i := i + 1;
      }
      if Find(Counters(infos), key).Some? {
        CountersAt(infos, Find(Counters(infos), key).value);
      }
    }

    /** `data_source_info_add`: behind the first source, or first if there is none. */
    method Add(key: Key) returns (r: SourceInfo)
      requires Valid() && Find(Counters(infos), key).None?
      modifies `first, `infos, (if first == null then {} else {first})`next
      ensures Valid() && fresh(r) && r.key == key && r in infos
      ensures forall x <- infos :: x == r || x in old(infos)
      ensures first == old(first) || fresh(first)
      ensures Counters(infos) == Added(old(Counters(infos)), key)
    {
      AddedUnique(Counters(infos), key);
      r := new SourceInfo(key);
      if first == null {
        first := r;
        infos := [r];
      } else {
        Insert(r);
      }
    }

    method Insert(r: SourceInfo)
      requires Linked(infos, first) && first != null && r !in infos && r.value == 0
      modifies `infos, r`next, first`next
      ensures Linked(infos, first) && infos == [first, r] + old(infos)[1..]
      ensures Counters(infos) == [old(Counters(infos))[0], Counter(r.key, 0)] + old(Counters(infos))[1..]
    {
      ghost var tail := infos[1..];
      CountersTwo(first, r, tail);
      assert infos == [first] + tail;
      hide Counters;
      LinkSecond(r);
      assert infos == [first, r] + tail;
    }

    method LinkSecond(r: SourceInfo)
      requires Linked(infos, first) && first != null && r !in infos
      modifies `infos, r`next, first`next
      ensures Linked(infos, first) && infos == [first, r] + old(infos)[1..]
    {
      ghost var was := infos;
      r.next := first.next;
      first.next := r;
      infos := [first, r] + was[1..];
      forall i | 0 <= i < |infos|
        ensures infos[i].next == if i + 1 < |infos| then infos[i + 1] else null
      {
        if i >= 2 {
          assert infos[i] == was[i - 1];
          assert was[i - 1].next == if i < |was| then was[i] else null;
        }
      }
    }

    /** `data_source_info_get_or_add`. */
    method GetOrAdd(key: Key) returns (r: SourceInfo)
      requires Valid()
      modifies `first, `infos, (if first == null then {} else {first})`next
      ensures Valid() && r in infos && r.key == key && (forall x <- infos :: x in old(infos) || fresh(x))
      ensures first == old(first) || fresh(first)
      ensures Counters(infos) == Added(old(Counters(infos)), key)
    {
      var found := Get(key);
      if found != null {
        return found;
      }
      r := Add(key);
    }

    /** `uint32_t` subtraction and addition when the numbers differ. */
    lemma Unchanged(c: nat, number: nat)
      requires c < MODULUS
      ensures Corrected(c, number, number) == c
    {
    }

    /** Writing one source's counter. */
    method Put(r: SourceInfo, value: nat)
      requires Valid() && r in infos && value < MODULUS
      modifies r`value
      ensures Valid() && Counters(infos) == Set(old(Counters(infos)), r.key, value)
    {
      ghost var i :| 0 <= i < |infos| && infos[i] == r;
      ghost var c := Counters(infos);
      hide Counters;
      hide Set;
      hide Find;
      hide Unique;
      CountersAll(infos);
      SetAt(c, i, value);
      r.value := value;
      CountersAll(infos);
      assert Counters(infos) == c[i := Counter(r.key, value)];
    }

    /** The source's counter; a newly connected input first makes sure that there is
        one. */
    method SourceOf(key: Key, connected: bool) returns (r: SourceInfo)
      requires Valid()
      modifies `first, `infos, infos`next
      ensures Valid() && r in infos && r.key == key && (r in old(infos) || fresh(r))
      ensures Counters(infos) == Added(old(Counters(infos)), key)
    {
      hide Counters;
      hide Unique;
      AddedTwice(Counters(infos), key);
      if connected {
        r := GetOrAdd(key);
      }
      r := GetOrAdd(key);
    }

    /** The accounting of `preprocessor_parse_msg`. */
    method ParseMessage(m: Message, connected: bool) returns (number: nat)
      requires Valid() && Enabled(Abstract(), m)
      modifies this, infos`next, infos`value
      ensures Valid() && Abstract() == Apply(old(Abstract()), m)
      ensures number == sent[|sent| - 1].number
    {
      hide Linked;
      hide Counters;
      hide Find;
      hide Unique;
      hide Added;
      hide Set;
      AddedTwice(Counters(infos), m.key);
      hide Value;
      var source := SourceOf(m.key, connected);
      number := Current(source);
      Unchanged(number, m.number);
      if inputs[m.input] != m.number {
        number := (number + m.number - inputs[m.input]) % MODULUS;
        inputs := inputs[m.input := m.number];
      }
      sent := sent + [Sent(m, number)];
      inputs := inputs[m.input := (inputs[m.input] + m.records) % MODULUS];
      Put(source, (number + m.records) % MODULUS);
    }

    method Current(r: SourceInfo) returns (value: nat)
      requires Valid() && r in infos
      ensures value == Value(Counters(infos), r.key) < MODULUS
    {
      ghost var i :| 0 <= i < |infos| && infos[i] == r;
      CountersAt(infos, i);
      FindUnique(Counters(infos), i);
      value := r.value;
    }
  }

  lemma AddedTwice(counters: seq<Counter>, key: Key)
    requires Unique(counters)
    ensures Added(Added(counters, key), key) == Added(counters, key)
    ensures Value(Added(counters, key), key) == Value(counters, key)
  {
    AddedUnique(counters, key);
  }
}
