/**
 * Reading a byte string from its end: items written one after another come back when each item can be
 * read at the offset where it ends.
 */
module BackwardsReading {
  import opened Wrappers
  import opened Bytes

  function SliceFromEnd(data: seq<byte>, negativeOffset: nat, length: int): seq<byte> {
    var end := |data| - negativeOffset;
    JsSlice(data, end - length, end)
  }

  function ConcatMap<S>(write: S -> seq<byte>, items: seq<S>): seq<byte> {
    if items == [] then [] else ConcatMap(write, items[..|items| - 1]) + write(items[|items| - 1])
  }

  function Map<S, T>(f: S -> T, s: seq<S>): (r: seq<T>)
    ensures |r| == |s|
    ensures forall i :: 0 <= i < |s| ==> r[i] == f(s[i])
  {
    if s == [] then [] else Map(f, s[..|s| - 1]) + [f(s[|s| - 1])]
  }

  /** Reads `count` items backwards in front of those read before; also gives the offset reached. */
  function ReadBackwards<T, E>(read: nat -> Result<(T, nat), E>, negativeOffset: nat, count: nat, later: seq<T>)
      : Result<(seq<T>, nat), E>
    decreases count
  {
    if count == 0 then Success((later, negativeOffset))
    else
      var item :- read(negativeOffset);
      ReadBackwards(read, negativeOffset + item.1, count - 1, [item.0] + later)
  }

  /** `b` ends `offset` bytes before the end of `data`. */
  ghost predicate EndsAt(data: seq<byte>, offset: nat, b: seq<byte>) {
    offset + |b| <= |data| && data[|data| - offset - |b|..|data| - offset] == b
  }

  lemma SplitAt(data: seq<byte>, offset: nat, a: seq<byte>, b: seq<byte>)
    requires EndsAt(data, offset, a + b)
    ensures EndsAt(data, offset, b) && EndsAt(data, offset + |b|, a)
  {
    var end := |data| - offset;
    var whole := data[end - |a + b|..end];
    assert b == whole[|a|..] == data[end - |b|..end];
    assert a == whole[..|a|] == data[end - |a + b|..end - |b|];
  }

  lemma SliceAt(data: seq<byte>, offset: nat, b: seq<byte>)
    requires EndsAt(data, offset, b)
    ensures SliceFromEnd(data, offset, |b|) == b
  {
  }

  /** An index past the end stops there; a negative one counts from the end, down to the first byte. */
  lemma ClampExactly(i: int, length: nat)
    ensures i >= length ==> ClampIndex(i, length) == length
    ensures 0 <= i <= length ==> ClampIndex(i, length) == i
    ensures i < 0 <= length + i ==> ClampIndex(i, length) == length + i
    ensures i < 0 && length + i <= 0 ==> ClampIndex(i, length) == 0
  {
  }

  /** A slice that starts too early starts at the negative index counted from the end, or at the first byte. */
  lemma SliceTooEarly(data: seq<byte>, offset: nat, length: nat)
    requires offset <= |data| < offset + length
    ensures var n := |data|; var start := if 2 * n <= offset + length then 0 else 2 * n - offset - length;
            SliceFromEnd(data, offset, length) == if start < n - offset then data[start..n - offset] else []
  {
    ClampExactly(|data| - offset - length, |data|);
    ClampExactly(|data| - offset, |data|);
    hide ClampIndex;
  }

  /** Wherever the written form of `s` ends in `data`, the reader returns `parsed(s)` and its length. */
  ghost predicate ReadsItem<S, T, E>(data: seq<byte>, read: nat -> Result<(T, nat), E>, write: S -> seq<byte>,
                                     parsed: S -> T, s: S)
  {
    forall o: nat {:trigger EndsAt(data, o, write(s))} ::
      EndsAt(data, o, write(s)) ==> read(o) == Success((parsed(s), |write(s)|))
  }

  lemma Regroup<T>(s: seq<T>, x: T, later: seq<T>)
    ensures s + ([x] + later) == (s + [x]) + later
  {
  }

  lemma ReadStep<T, E>(read: nat -> Result<(T, nat), E>, offset: nat, count: nat, later: seq<T>, item: T, size: nat)
    requires count > 0 && read(offset) == Success((item, size))
    ensures ReadBackwards(read, offset, count, later) == ReadBackwards(read, offset + size, count - 1, [item] + later)
  {
  }

  lemma {:induction false} ReadsConcat<S, T, E>(
    data: seq<byte>, read: nat -> Result<(T, nat), E>, write: S -> seq<byte>, parsed: S -> T, offset: nat,
    items: seq<S>, later: seq<T>)
    requires forall i :: 0 <= i < |items| ==> ReadsItem(data, read, write, parsed, items[i])
    requires EndsAt(data, offset, ConcatMap(write, items))
    ensures ReadBackwards(read, offset, |items|, later) ==
              Success((Map(parsed, items) + later, offset + |ConcatMap(write, items)|))
    decreases |items|
  {
    if items == [] {
      assert Map(parsed, items) + later == later;
    } else {
      var n := |items| - 1;
      var init, last := items[..n], items[n];
      SplitAt(data, offset, ConcatMap(write, init), write(last));
      assert ReadsItem(data, read, write, parsed, last);
      ReadStep(read, offset, |items|, later, parsed(last), |write(last)|);
      ReadsConcat(data, read, write, parsed, offset + |write(last)|, init, [parsed(last)] + later);
      Regroup(Map(parsed, init), parsed(last), later);
    }
  }

  /** Everything read has a property that every single reading guarantees. */
  lemma {:induction false} ReadItemsSatisfy<T, E>(read: nat -> Result<(T, nat), E>, p: T -> bool, offset: nat,
                                                  count: nat, later: seq<T>)
    requires forall o: nat :: read(o).Success? ==> p(read(o).value.0)
    requires forall i :: 0 <= i < |later| ==> p(later[i])
    ensures var r := ReadBackwards(read, offset, count, later);
            r.Success? ==> forall i :: 0 <= i < |r.value.0| ==> p(r.value.0[i])
    decreases count
  {
    if count > 0 && read(offset).Success? {
      var item := read(offset).value;
      ReadItemsSatisfy(read, p, offset + item.1, count - 1, [item.0] + later);
    }
  }
}
