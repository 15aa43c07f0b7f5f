/** The request feed of the Requests page: every poll of the proxy's recent
    requests is merged into a bounded, deduplicated list shown newest first. */
module Requests {
  import opened Wrappers

  /** Capacity of the feed (LIST_ITEMS_MAX). */
  const ListItemsMax: nat := 150

  /** A field value of a request record; the feed never interprets it. */
  datatype Value = Text(text: string) | Number(number: int) | Flag(flag: bool)

  /** One proxied request: its numeric id and its other fields by name. */
  datatype Request = Request(id: int, fields: map<string, Value>)

  /** The set of ids occurring in a list. */
  function IdSet(list: seq<Request>): set<int>
  {
    set r | r in list :: r.id
  }

  /** No two entries share an id. */
  predicate UniqueIds(list: seq<Request>)
  {
    forall i, j :: 0 <= i < j < |list| ==> list[i].id != list[j].id
  }

  /** The first entry carries the largest id of the list. */
  predicate HeadHoldsMax(list: seq<Request>)
  {
    forall i :: 0 <= i < |list| ==> list[i].id <= list[0].id
  }

  /** `list.findIndex(item => item.id === id)`: the first index holding `id`, or -1. */
  function FindIndex(list: seq<Request>, id: int): (k: int)
    ensures -1 <= k < |list|
    ensures k >= 0 ==> list[k].id == id && forall j :: 0 <= j < k ==> list[j].id != id
    ensures k < 0 <==> id !in IdSet(list)
  {
    if list == [] then -1
    else if list[0].id == id then 0
    else
      var k := FindIndex(list[1..], id);
      assert id in IdSet(list[1..]) ==> id in IdSet(list) by {
        if id in IdSet(list[1..]) {
          var r :| r in list[1..] && r.id == id;
          assert r in list;
        }
      }
      assert id in IdSet(list) && id != list[0].id ==> id in IdSet(list[1..]) by {
        if id in IdSet(list) && id != list[0].id {
          var r :| r in list && r.id == id;
          var i :| 0 <= i < |list| && list[i] == r;
          assert list[1..][i - 1] == r;
        }
      }
      if k < 0 then -1 else k + 1
  }

  /** `Object.assign(target, omit(source, ['id']))`: the fields of `source`
      overwrite those of `target`; the id stays the target's. */
  function Assign(target: Request, source: Request): (r: Request)
    ensures r.id == target.id
    ensures r.fields.Keys == target.fields.Keys + source.fields.Keys
    ensures forall f :: f in source.fields ==> r.fields[f] == source.fields[f]
    ensures forall f :: f in target.fields && f !in source.fields ==> r.fields[f] == target.fields[f]
  {
    Request(target.id, target.fields + source.fields)
  }

  /** Merges one polled record into the list: an entry with the same id is
      updated where it stands, otherwise the record goes to the front when its
      id exceeds the head's and to the back when not. */
  function Step(list: seq<Request>, request: Request): (r: seq<Request>)
    ensures |list| <= |r| <= |list| + 1
  {
    var k := FindIndex(list, request.id);
    if k >= 0 then list[k := Assign(list[k], request)]
    else if |list| > 0 && request.id > list[0].id then [request] + list
    else list + [request]
  }

  /** The records still to merge are popped off the end of `pending` one at a time. */
  function ApplyPending(list: seq<Request>, pending: seq<Request>): (r: seq<Request>)
    ensures |list| <= |r| <= |list| + |pending|
    decreases |pending|
  {
    if pending == [] then list
    else ApplyPending(Step(list, pending[|pending| - 1]), pending[..|pending| - 1])
  }

  /** `requests?.requests?.slice(0, LIST_ITEMS_MAX) ?? []`. */
  function Pending(polled: Option<seq<Request>>): (p: seq<Request>)
    ensures |p| <= ListItemsMax
    ensures polled.None? ==> p == []
    ensures polled.Some? ==> |p| == (if |polled.value| < ListItemsMax then |polled.value| else ListItemsMax)
    ensures polled.Some? ==> p == polled.value[..|p|]
  {
    match polled
    case None => []
    case Some(batch) => if |batch| <= ListItemsMax then batch else batch[..ListItemsMax]
  }

  /** `list.slice(0, LIST_ITEMS_MAX)`. */
  function Truncate(list: seq<Request>): (r: seq<Request>)
    ensures |r| <= ListItemsMax && |r| <= |list|
    ensures r == list[..|r|]
    ensures |list| <= ListItemsMax ==> r == list
    ensures |list| > ListItemsMax ==> |r| == ListItemsMax
  {
    if |list| <= ListItemsMax then list else list[..ListItemsMax]
  }

  /** The feed after one poll: specification of MergeRequests. */
  function Merge(requestList: seq<Request>, polled: Option<seq<Request>>): (r: seq<Request>)
    ensures |r| <= ListItemsMax
    ensures |r| == ListItemsMax || |requestList| <= |r|
  {
    Truncate(ApplyPending(requestList, Pending(polled)))
  }

  /** The body of the page's effect on a new poll result, as the loop it is. */
  method MergeRequests(requestList: seq<Request>, polled: Option<seq<Request>>) returns (newList: seq<Request>)
    ensures newList == Merge(requestList, polled)
    ensures |newList| <= ListItemsMax
    ensures UniqueIds(requestList) ==> UniqueIds(newList)
    ensures HeadHoldsMax(requestList) ==> HeadHoldsMax(newList)
  {
    newList := requestList;
    var pendingList := Pending(polled);
    while |pendingList| > 0
      invariant ApplyPending(newList, pendingList) == ApplyPending(requestList, Pending(polled))
      decreases |pendingList|
    {
      var request := pendingList[|pendingList| - 1];
      ghost var before := newList;
      pendingList := pendingList[..|pendingList| - 1];
      var existingIndex := FindIndex(newList, request.id);
      if existingIndex >= 0 {
        newList := newList[existingIndex := Assign(newList[existingIndex], request)];
      } else if |newList| > 0 && request.id > newList[0].id {
        newList := [request] + newList;
      } else {
        newList := newList + [request];
      }
      assert newList == Step(before, request);
    }
    newList := Truncate(newList);
    if UniqueIds(requestList) {
      MergePreservesUniqueIds(requestList, polled);
    }
    if HeadHoldsMax(requestList) {
      MergePreservesHeadMax(requestList, polled);
    }
  }

  // ---------------------------------------------------------------------------
  // One step

  /** A record whose id is present updates that entry in place: same index,
      same id, its fields overwritten, every other entry untouched. */
  lemma StepUpdatesInPlace(list: seq<Request>, request: Request, k: nat)
    requires k < |list| && list[k].id == request.id
    requires forall j :: 0 <= j < k ==> list[j].id != request.id
    ensures |Step(list, request)| == |list|
    ensures Step(list, request)[k] == Assign(list[k], request)
    ensures Step(list, request)[k].id == list[k].id
    ensures forall j :: 0 <= j < |list| && j != k ==> Step(list, request)[j] == list[j]
  {
  }

  /** A record whose id is absent goes to the front exactly when the list is
      non-empty and its id exceeds the head's, and to the back otherwise. */
  lemma StepInsertsNew(list: seq<Request>, request: Request)
    requires request.id !in IdSet(list)
    ensures |list| > 0 && request.id > list[0].id ==> Step(list, request) == [request] + list
    ensures !(|list| > 0 && request.id > list[0].id) ==> Step(list, request) == list + [request]
    ensures Step(list, request)[0] == request <==> list == [] || request.id > list[0].id
  {
  }

  lemma IdSetConcat(a: seq<Request>, b: seq<Request>)
    ensures IdSet(a + b) == IdSet(a) + IdSet(b)
  {
  }

  /** Ids are never lost or invented by a step: the record's id joins the set. */
  lemma StepIds(list: seq<Request>, request: Request)
    ensures IdSet(Step(list, request)) == IdSet(list) + {request.id}
  {
    var k := FindIndex(list, request.id);
    var s := Step(list, request);
    if k >= 0 {
      forall id | id in IdSet(s) ensures id in IdSet(list) + {request.id} {
        var r :| r in s && r.id == id;
        var i :| 0 <= i < |s| && s[i] == r;
        assert list[i] in list;
      }
      forall id | id in IdSet(list) ensures id in IdSet(s) {
        var r :| r in list && r.id == id;
        var i :| 0 <= i < |list| && list[i] == r;
        assert s[i] in s;
      }
    } else if |list| > 0 && request.id > list[0].id {
      IdSetConcat([request], list);
      assert IdSet([request]) == {request.id};
    } else {
      IdSetConcat(list, [request]);
      assert IdSet([request]) == {request.id};
    }
  }

  /** The entries of `list` appear in `m` as one block from index `at` on,
      with the same ids in the same order. */
  predicate IdBlockAt(m: seq<Request>, list: seq<Request>, at: int)
  {
    0 <= at && at + |list| <= |m| && forall i :: 0 <= i < |list| ==> m[at + i].id == list[i].id
  }

  /** A step shifts the old entries by at most one place, keeping their order. */
  lemma StepShift(list: seq<Request>, request: Request) returns (shift: nat)
    ensures shift <= 1 && IdBlockAt(Step(list, request), list, shift)
  {
    if FindIndex(list, request.id) < 0 && |list| > 0 && request.id > list[0].id {
      shift := 1;
    } else {
      shift := 0;
    }
  }

  /** A block of a block is a block. */
  lemma BlockOfBlock(m: seq<Request>, s: seq<Request>, t: seq<Request>, a: nat, b: nat)
    requires IdBlockAt(m, s, a) && IdBlockAt(s, t, b)
    ensures IdBlockAt(m, t, a + b)
  {
    forall i | 0 <= i < |t| ensures m[a + b + i].id == t[i].id {
      assert m[a + (b + i)].id == s[b + i].id;
    }
  }

  lemma StepPreservesUniqueIds(list: seq<Request>, request: Request)
    requires UniqueIds(list)
    ensures UniqueIds(Step(list, request))
  {
  }

  lemma StepPreservesHeadMax(list: seq<Request>, request: Request)
    requires HeadHoldsMax(list)
    ensures HeadHoldsMax(Step(list, request))
  {
  }

  // ---------------------------------------------------------------------------
  // The whole batch

  /** The records merged front to back: the reference for the pop order. */
  function ApplyInOrder(list: seq<Request>, records: seq<Request>): seq<Request>
    decreases |records|
  {
    if records == [] then list else ApplyInOrder(Step(list, records[0]), records[1..])
  }

  /** The reversal of a sequence. */
  function Reverse(s: seq<Request>): (r: seq<Request>)
    ensures |r| == |s|
    ensures forall i :: 0 <= i < |s| ==> r[i] == s[|s| - 1 - i]
  {
    if s == [] then [] else [s[|s| - 1]] + Reverse(s[..|s| - 1])
  }

  /** Popping the pending records off the end merges them last to first. */
  lemma {:induction false} ApplyPendingIsReverseOrder(list: seq<Request>, pending: seq<Request>)
    ensures ApplyPending(list, pending) == ApplyInOrder(list, Reverse(pending))
    decreases |pending|
  {
    if pending != [] {
      var last, rest := pending[|pending| - 1], pending[..|pending| - 1];
      ApplyPendingIsReverseOrder(Step(list, last), rest);
      var rev := Reverse(pending);
      assert rev[0] == last;
      assert rev[1..] == Reverse(rest);
    }
  }

  /** Records past the first ListItemsMax of a poll have no effect. */
  lemma MergeIgnoresOverflow(requestList: seq<Request>, batch: seq<Request>)
    requires |batch| > ListItemsMax
    ensures Merge(requestList, Some(batch)) == Merge(requestList, Some(batch[..ListItemsMax]))
  {
  }

  /** A missing poll result, or an empty one, leaves a feed within capacity as it was. */
  lemma MergeEmptyIsNoOp(requestList: seq<Request>)
    requires |requestList| <= ListItemsMax
    ensures Merge(requestList, None) == requestList
    ensures Merge(requestList, Some([])) == requestList
  {
  }

  lemma {:induction false} ApplyPendingIds(list: seq<Request>, pending: seq<Request>)
    ensures IdSet(ApplyPending(list, pending)) == IdSet(list) + IdSet(pending)
    decreases |pending|
  {
    if pending != [] {
      var last, rest := pending[|pending| - 1], pending[..|pending| - 1];
      var s := Step(list, last);
      assert pending == rest + [last];
      calc {
        IdSet(ApplyPending(list, pending));
        IdSet(ApplyPending(s, rest));
        { ApplyPendingIds(s, rest); }
        IdSet(s) + IdSet(rest);
        { StepIds(list, last); }
        IdSet(list) + {last.id} + IdSet(rest);
        { IdSetConcat(rest, [last]); assert IdSet([last]) == {last.id}; }
        IdSet(list) + IdSet(pending);
      }
    }
  }

  lemma {:induction false} ApplyPendingPreservesUniqueIds(list: seq<Request>, pending: seq<Request>)
    requires UniqueIds(list)
    ensures UniqueIds(ApplyPending(list, pending))
    decreases |pending|
  {
    if pending != [] {
      StepPreservesUniqueIds(list, pending[|pending| - 1]);
      ApplyPendingPreservesUniqueIds(Step(list, pending[|pending| - 1]), pending[..|pending| - 1]);
    }
  }

  lemma {:induction false} ApplyPendingPreservesHeadMax(list: seq<Request>, pending: seq<Request>)
    requires HeadHoldsMax(list)
    ensures HeadHoldsMax(ApplyPending(list, pending))
    decreases |pending|
  {
    if pending != [] {
      StepPreservesHeadMax(list, pending[|pending| - 1]);
      ApplyPendingPreservesHeadMax(Step(list, pending[|pending| - 1]), pending[..|pending| - 1]);
    }
  }

  /** In a list with distinct ids, the length is the number of ids. */
  lemma {:induction false} UniqueIdsCount(list: seq<Request>)
    requires UniqueIds(list)
    ensures |IdSet(list)| == |list|
  {
    if list != [] {
      var rest := list[1..];
      assert UniqueIds(rest) by {
        forall i, j | 0 <= i < j < |rest| ensures rest[i].id != rest[j].id {
          assert rest[i] == list[i + 1] && rest[j] == list[j + 1];
        }
      }
      UniqueIdsCount(rest);
      assert list == [list[0]] + rest;
      IdSetConcat([list[0]], rest);
      assert IdSet([list[0]]) == {list[0].id};
      assert list[0].id !in IdSet(rest);
    }
  }

  /** Without the cap, a merge holds one entry per distinct id of the old
      list and the batch: repeated ids in a poll collapse into updates. */
  lemma ApplyPendingCount(list: seq<Request>, pending: seq<Request>)
    requires UniqueIds(list)
    ensures |ApplyPending(list, pending)| == |IdSet(list) + IdSet(pending)|
  {
    ApplyPendingPreservesUniqueIds(list, pending);
    ApplyPendingIds(list, pending);
    UniqueIdsCount(ApplyPending(list, pending));
  }

  /** The old entries stay together and in order: they form one block of the
      merged list, starting after the records inserted at the front. */
  lemma {:induction false} ApplyPendingKeepsOrder(list: seq<Request>, pending: seq<Request>) returns (front: nat)
    ensures front <= |pending|
    ensures IdBlockAt(ApplyPending(list, pending), list, front)
    decreases |pending|
  {
    if pending == [] {
      front := 0;
    } else {
      var last, rest := pending[|pending| - 1], pending[..|pending| - 1];
      var s := Step(list, last);
      var shift := StepShift(list, last);
      var front' := ApplyPendingKeepsOrder(s, rest);
      assert ApplyPending(list, pending) == ApplyPending(s, rest);
      BlockOfBlock(ApplyPending(s, rest), s, list, front', shift);
      front := front' + shift;
    }
  }

  // ---------------------------------------------------------------------------
  // The merge as a whole

  /** The feed never exceeds its capacity. */
  lemma MergeBounded(requestList: seq<Request>, polled: Option<seq<Request>>)
    ensures |Merge(requestList, polled)| <= ListItemsMax
  {
  }

  lemma MergePreservesUniqueIds(requestList: seq<Request>, polled: Option<seq<Request>>)
    requires UniqueIds(requestList)
    ensures UniqueIds(Merge(requestList, polled))
  {
    ApplyPendingPreservesUniqueIds(requestList, Pending(polled));
  }

  lemma MergePreservesHeadMax(requestList: seq<Request>, polled: Option<seq<Request>>)
    requires HeadHoldsMax(requestList)
    ensures HeadHoldsMax(Merge(requestList, polled))
  {
    ApplyPendingPreservesHeadMax(requestList, Pending(polled));
  }

  /** After a merge the old entries appear in their old relative order, from
      position `front` on, behind at most one record per merged poll record;
      entries are missing only when the list is full at the cap. */
  lemma MergeKeepsOrder(requestList: seq<Request>, polled: Option<seq<Request>>) returns (front: nat)
    ensures front <= |Pending(polled)|
    ensures forall i :: 0 <= i < |requestList| && front + i < |Merge(requestList, polled)| ==>
      Merge(requestList, polled)[front + i].id == requestList[i].id
    ensures front + |requestList| <= |Merge(requestList, polled)| ||
      |Merge(requestList, polled)| == ListItemsMax
  {
    front := ApplyPendingKeepsOrder(requestList, Pending(polled));
  }

  /** The merge of an empty feed with a poll [{id: 1}, {id: 2}] is [{id: 2}, {id: 1}]. */
  lemma ExampleFirstPoll()
    ensures Merge([], Some([Request(1, map[]), Request(2, map[])])) == [Request(2, map[]), Request(1, map[])]
  {
    var r1, r2 := Request(1, map[]), Request(2, map[]);
    var batch := [r1, r2];
    assert Pending(Some(batch)) == batch;
    assert batch[..1] == [r1];
    assert Step([], r2) == [r2];
    assert FindIndex([r2], 1) == -1;
    assert Step([r2], r1) == [r2, r1];
    assert ApplyPending([], batch) == ApplyPending([r2], [r1]);
    assert ApplyPending([r2], [r1]) == ApplyPending([r2, r1], []);
  }

  /** The feed is not sorted by id in general: an absent record older than the
      head but newer than the tail is appended behind the tail. */
  lemma ExampleAppendBehindTail()
    ensures Merge([Request(5, map[]), Request(1, map[])], Some([Request(3, map[])]))
         == [Request(5, map[]), Request(1, map[]), Request(3, map[])]
  {
    var r5, r1, r3 := Request(5, map[]), Request(1, map[]), Request(3, map[]);
    assert Pending(Some([r3])) == [r3];
    assert FindIndex([r1], 3) == -1;
    assert FindIndex([r5, r1], 3) == -1;
  }

  /** The page's state: the request list it renders. */
  class RequestsPage {
    var requestList: seq<Request>

    /** What every merge keeps: capacity, unique ids, newest id at the head. */
    ghost predicate Valid()
      reads this
    {
      |requestList| <= ListItemsMax && UniqueIds(requestList) && HeadHoldsMax(requestList)
    }

    constructor ()
      ensures Valid() && requestList == []
    {
      requestList := [];
    }

    /** The effect run whenever a new poll result arrives. */
    method OnPoll(polled: Option<seq<Request>>)
      requires Valid()
      modifies this
      ensures Valid()
      ensures requestList == Merge(old(requestList), polled)
    {
      var newList := MergeRequests(requestList, polled);
      requestList := newList;
    }
  }
}
