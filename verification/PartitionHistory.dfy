/** A partition's log as its readers see it: the values ever appended, and a base that only
    retention moves. Offsets address values; the cache is the part from the base on. */
module PartitionHistory {
  import opened Text
  import opened LogLine

  datatype History = History(values: seq<string>, base: nat)

  /** Retention never drops the newest record. */
  predicate Valid(h: History) {
    h.base < |h.values| || (h.base == 0 && h.values == [])
  }

  function Cache(h: History): (ms: seq<Message>)
    requires Valid(h)
    ensures |ms| == |h.values| - h.base
  {
    Slice(h.values, h.base, |h.values|)
  }

  /** The records of values[from..to]. */
  function Slice(values: seq<string>, from: int, to: int): (ms: seq<Message>)
    requires 0 <= from <= to <= |values|
    ensures |ms| == to - from
    ensures forall i :: 0 <= i < |ms| ==> ms[i] == Message(from + i, values[from + i])
  {
    seq(to - from, i requires 0 <= i < to - from => Message(from + i, values[from + i]))
  }

  /** Storage.Consume: the offset is used as an index into the cache. A partition without data, an empty
      cache here, gives an empty list; otherwise None is the panic of the Go slice expression on a
      negative offset. */
  function Consume(cache: seq<Message>, offset: int): Option<seq<Message>> {
    if cache == [] || offset >= |cache| then Some([])
    else if offset < 0 then None
    else Some(cache[offset..])
  }

  /** Storage.LastOffset. */
  function LastOffset(cache: seq<Message>): int {
    if cache == [] then -1 else cache[|cache| - 1].offset
  }

  /** The values after Storage.AppendReplicated; None is its non-contiguous error. */
  function AppendReplicated(values: seq<string>, offset: int, value: string): Option<seq<string>> {
    if offset < |values| then Some(values)
    else if offset > |values| then None
    else Some(values + [value])
  }

  /** The records up to the high watermark: handleConsume's filtering loop. */
  function UpTo(messages: seq<Message>, hw: int): seq<Message> {
    if messages == [] || messages[0].offset > hw then [] else [messages[0]] + UpTo(messages[1..], hw)
  }

  /** handleConsume, given the high watermark it read first and the cache it read after. */
  function ReadCommitted(cache: seq<Message>, offset: int, hw: int): Option<seq<Message>> {
    if hw < 0 || offset > hw then Some([])
    else match Consume(cache, offset)
      case None => None
      case Some(messages) => Some(UpTo(messages, hw))
  }

  method FilterCommitted(messages: seq<Message>, hw: int) returns (filtered: seq<Message>)
    ensures filtered == UpTo(messages, hw)
  {
    filtered := [];
    assert messages[0..] == messages;
    for i := 0 to |messages|
      invariant filtered + UpTo(messages[i..], hw) == UpTo(messages, hw)
    {
      assert messages[i..][0] == messages[i] && messages[i..][1..] == messages[i + 1..];
      if messages[i].offset > hw {
        break;
      }
      filtered := filtered + [messages[i]];
    }
  }

  /** Consume from o returns exactly the records with offset at least base + o, and panics exactly
      on a negative o where there is data. */
  lemma ConsumeSkipsByIndex(h: History, o: int)
    requires Valid(h)
    ensures o >= 0 ==>
              Consume(Cache(h), o)
              == Some(if h.base + o < |h.values| then Slice(h.values, h.base + o, |h.values|) else [])
    ensures o < 0 ==> Consume(Cache(h), o) == if h.values == [] then Some([]) else None
  {
    if 0 <= o && h.base + o < |h.values| {
      assert Cache(h)[o..] == Slice(h.values, h.base + o, |h.values|);
    }
  }

  lemma {:induction false} UpToPrefix(messages: seq<Message>, k: nat, hw: int)
    requires k <= |messages| && forall i :: 0 <= i < k ==> messages[i].offset <= hw
    requires k < |messages| ==> messages[k].offset > hw
    ensures UpTo(messages, hw) == messages[..k]
  {
    if k == 0 {
    } else {
      UpToPrefix(messages[1..], k - 1, hw);
      assert messages[..k] == [messages[0]] + messages[1..][..k - 1];
    }
  }

  lemma UpToSlice(values: seq<string>, from: int, hw: int)
    requires 0 <= from <= |values| && hw < |values|
    ensures UpTo(Slice(values, from, |values|), hw) == if hw < from then [] else Slice(values, from, hw + 1)
  {
    var k := if hw < from then 0 else hw + 1 - from;
    var messages := Slice(values, from, |values|);
    UpToPrefix(messages, k, hw);
    if hw >= from {
      assert messages[..k] == Slice(values, from, hw + 1);
    }
  }

  /** What a committed read returns, whatever retention has dropped. */
  lemma ReadCommittedMeaning(h: History, o: int, hw: int)
    requires Valid(h) && hw < |h.values|
    ensures ReadCommitted(Cache(h), o, hw)
            == if hw < 0 || o > hw then Some([])
               else if o < 0 then None
               else if h.base + o <= hw then Some(Slice(h.values, h.base + o, hw + 1))
               else Some([])
  {
    ConsumeSkipsByIndex(h, o);
    if 0 <= o <= hw {
      var from := h.base + o;
      if from < |h.values| {
        UpToSlice(h.values, from, hw);
      } else {
        assert UpTo([], hw) == [];
      }
    }
  }

  /** The committed log from o on: what a read should return. */
  function CommittedSlice(values: seq<string>, o: nat, hw: int): seq<Message>
    requires hw < |values|
  {
    if o > hw then [] else Slice(values, o, hw + 1)
  }

  /** A committed read returns the log from o through the high watermark if and only if
      retention has dropped nothing, or there was nothing to read. A read from a negative offset
      crashes the broker if and only if something is committed. */
  lemma ReadCommittedExact(h: History, o: int, hw: int)
    requires Valid(h) && hw < |h.values|
    ensures o >= 0 ==>
              (ReadCommitted(Cache(h), o, hw) == Some(CommittedSlice(h.values, o, hw)) <==> h.base == 0 || hw < o)
    ensures o < 0 ==> ReadCommitted(Cache(h), o, hw) == if hw >= 0 then None else Some([])
  {
    ReadCommittedMeaning(h, o, hw);
    if 0 <= o <= hw && h.base > 0 && h.base + o <= hw {
      assert Slice(h.values, h.base + o, hw + 1)[0].offset == h.base + o;
      assert Slice(h.values, o, hw + 1)[0].offset == o;
    }
  }
}
