/**
 Why a module is refused: the first fault, in the order in which a scan meets them. A counted
 list is scanned item by item, each item tested after those before it; the scan passes exactly
 the lists the grammar reads whose items all pass the test.
 */
module WasmVerdict {
  import opened Octets
  import opened WasmFormat

  datatype Fault = Invalid | Unsupported

  datatype Outcome<+T> = Passed(value: T) | Refused(fault: Fault)

  datatype Item<+E> = Item(entry: E, rest: seq<Byte>)

  /** An item of the grammar, of which a scan only says that it cannot be read. */
  function Plain<E>(item: seq<Byte> -> Read<E>): seq<Byte> -> Outcome<Item<E>> {
    s => match item(s) case Fail => Refused(Invalid) case Got(e, rest) => Passed(Item(e, rest))
  }

  /** The n items at the front, after those done; nothing may follow them. */
  function ListFrom<E>(
    step: seq<Byte> -> Outcome<Item<E>>, allows: (seq<E>, E) -> bool, s: seq<Byte>, n: nat, done: seq<E>)
    : Outcome<seq<E>>
    decreases n
  {
    if n == 0 then
      if s == [] then Passed(done) else Refused(Invalid)
    else
      match step(s)
      case Refused(f) => Refused(f)
      case Passed(i) =>
        if allows(done, i.entry) then ListFrom(step, allows, i.rest, n - 1, done + [i.entry])
        else Refused(Unsupported)
  }

  /** A scan that has come as far as `window` with `left` items to go comes to the same as the whole. */
  predicate Ahead<E(==)>(
    whole: Outcome<seq<E>>, step: seq<Byte> -> Outcome<Item<E>>, allows: (seq<E>, E) -> bool, window: seq<Byte>,
    count: nat, done: seq<E>)
  {
    |done| <= count && whole == ListFrom(step, allows, window, count - |done|, done)
  }

  lemma AheadStarts<E>(
    step: seq<Byte> -> Outcome<Item<E>>, allows: (seq<E>, E) -> bool, window: seq<Byte>, count: nat)
    ensures Ahead(ListFrom(step, allows, window, count, []), step, allows, window, count, [])
  {
    var none: seq<E> := [];
    assert |none| == 0;
  }

  lemma AheadStops<E>(
    whole: Outcome<seq<E>>, step: seq<Byte> -> Outcome<Item<E>>, allows: (seq<E>, E) -> bool, window: seq<Byte>,
    count: nat, done: seq<E>)
    requires Ahead(whole, step, allows, window, count, done)
    ensures |done| == count ==> whole == if window == [] then Passed(done) else Refused(Invalid)
    ensures |done| < count && step(window).Refused? ==> whole == Refused(step(window).fault)
    ensures |done| < count && step(window).Passed? ==>
              var i := step(window).value;
              if allows(done, i.entry) then Ahead(whole, step, allows, i.rest, count, done + [i.entry])
              else whole == Refused(Unsupported)
  {
  }

  /** Every item of the list passes the test after those before it. */
  predicate AllAllowed<E>(allows: (seq<E>, E) -> bool, done: seq<E>, list: seq<E>) {
    forall i | 0 <= i < |list| :: allows(done + list[..i], list[i])
  }

  /** The step reads the items of the grammar, but may refuse one early that fails every test. */
  ghost predicate Follows<E(!new)>(
    step: seq<Byte> -> Outcome<Item<E>>, item: seq<Byte> -> Read<E>, allows: (seq<E>, E) -> bool)
  {
    forall s ::
      match step(s)
      case Passed(i) => item(s) == Got(i.entry, i.rest)
      case Refused(_) => item(s).Got? ==> NeverAllowed(allows, item(s).value)
  }

  ghost predicate NeverAllowed<E(!new)>(allows: (seq<E>, E) -> bool, e: E) {
    forall done :: !allows(done, e)
  }

  lemma PlainFollows<E(!new)>(item: seq<Byte> -> Read<E>, allows: (seq<E>, E) -> bool)
    ensures Follows(Plain(item), item, allows)
  {
  }

  lemma AllAllowedStep<E>(allows: (seq<E>, E) -> bool, done: seq<E>, e: E, tail: seq<E>)
    ensures AllAllowed(allows, done, [e] + tail) <==> allows(done, e) && AllAllowed(allows, done + [e], tail)
    ensures done + ([e] + tail) == done + [e] + tail
  {
    var list := [e] + tail;
    assert done + list[..0] == done;
    forall i | 0 <= i < |tail|
      ensures done + [e] + tail[..i] == done + list[..i + 1] && list[i + 1] == tail[i]
    {
      assert list[..i + 1] == [e] + tail[..i];
    }
    if AllAllowed(allows, done, list) {
      assert allows(done + list[..0], list[0]);
      TailAllowed(allows, done, e, tail);
    }
    if allows(done, e) && AllAllowed(allows, done + [e], tail) {
      forall i | 0 <= i < |list| ensures allows(done + list[..i], list[i]) {
        if i > 0 {
          assert allows(done + [e] + tail[..i - 1], tail[i - 1]);
        }
      }
    }
  }

  lemma TailAllowed<E>(allows: (seq<E>, E) -> bool, done: seq<E>, e: E, tail: seq<E>)
    requires AllAllowed(allows, done, [e] + tail)
    ensures AllAllowed(allows, done + [e], tail)
  {
    var list := [e] + tail;
    forall i | 0 <= i < |tail| ensures allows(done + [e] + tail[..i], tail[i]) {
      assert list[..i + 1] == [e] + tail[..i];
      assert done + list[..i + 1] == done + [e] + tail[..i];
      assert allows(done + list[..i + 1], list[i + 1]);
    }
  }

  lemma AllAllowedLast<E>(allows: (seq<E>, E) -> bool, front: seq<E>, e: E)
    ensures AllAllowed(allows, [], front + [e]) <==> AllAllowed(allows, [], front) && allows(front, e)
  {
    var list := front + [e];
    assert [] + list[..|front|] == front && list[|front|] == e;
    forall i | 0 <= i < |front|
      ensures [] + list[..i] == [] + front[..i] && list[i] == front[i]
    {
      assert list[..i] == front[..i];
    }
    if AllAllowed(allows, [], list) {
      forall i | 0 <= i < |front| ensures allows([] + front[..i], front[i]) {
        assert allows([] + list[..i], list[i]);
      }
      assert allows([] + list[..|front|], list[|front|]);
    }
    if AllAllowed(allows, [], front) && allows(front, e) {
      forall i | 0 <= i < |list| ensures allows([] + list[..i], list[i]) {
        if i < |front| {
          assert allows([] + front[..i], front[i]);
        }
      }
    }
  }

  /** What the grammar reads of the list, all of it allowed. */
  predicate ListAllowed<E(==)>(
    item: seq<Byte> -> Read<E>, allows: (seq<E>, E) -> bool, s: seq<Byte>, n: nat, done: seq<E>, all: seq<E>)
  {
    var list := ListOf(item, s, n);
    list.Got? && list.rest == [] && AllAllowed(allows, done, list.value) && all == done + list.value
  }

  /** A scan passes exactly what the grammar reads and the test allows. */
  lemma {:induction false} ListFromIsGrammar<E(!new)>(
    step: seq<Byte> -> Outcome<Item<E>>, item: seq<Byte> -> Read<E>, allows: (seq<E>, E) -> bool, s: seq<Byte>,
    n: nat, done: seq<E>, all: seq<E>)
    requires Follows(step, item, allows)
    ensures ListFrom(step, allows, s, n, done) == Passed(all) <==> ListAllowed(item, allows, s, n, done, all)
    decreases n
  {
    if n == 0 {
      assert done + [] == done;
      return;
    }
    if item(s).Fail? {
      return;
    }
    var e, more := item(s).value, item(s).rest;
    var tail := ListOf(item, more, n - 1);
    if tail.Got? {
      AllAllowedStep(allows, done, e, tail.value);
    }
    if step(s).Passed? && allows(done, e) {
      ListFromIsGrammar(step, item, allows, more, n - 1, done + [e], all);
    }
  }
}
