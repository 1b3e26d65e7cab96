/** One node's part in flooding: the window of message ids it remembers, and what it does
    with a frame. */
module Gossip {
  import opened Chain
  import Text

  const LOOP_WINDOW: nat := 4096

  /** Absent fields are `None`. */
  datatype Frame = Frame(origin: Option<string>, id: Option<string>, topic: Option<string>, payload: string)

  // ---------------------------------------------------------------------- the window

  /** Remembering an id: nothing if it is known, else at the end, and past the bound the
      oldest goes. */
  function Note(order: seq<string>, id: string): seq<string> {
    if id in order then order
    else if |order| + 1 > LOOP_WINDOW then (order + [id])[1..] else order + [id]
  }

  lemma NoteKeeps(order: seq<string>, id: string)
    requires Text.Distinct(order) && |order| <= LOOP_WINDOW
    ensures Text.Distinct(Note(order, id)) && |Note(order, id)| <= LOOP_WINDOW && id in Note(order, id)
  {
    var grown := order + [id];
    assert grown[|order|] == id;
    if id !in order && |grown| > LOOP_WINDOW { assert grown[1..][|order| - 1] == id; }
  }

  /** The ids let in while a list of ids is presented one after the other. */
  function Admitted(ids: seq<string>): seq<string> {
    if ids == [] then []
    else
      var before := Admitted(ids[..|ids| - 1]);
      if ids[|ids| - 1] in WindowAfter(ids[..|ids| - 1]) then before else before + [ids[|ids| - 1]]
  }

  function WindowAfter(ids: seq<string>): seq<string> {
    if ids == [] then [] else Note(WindowAfter(ids[..|ids| - 1]), ids[|ids| - 1])
  }

  function Latest(s: seq<string>): seq<string> {
    if |s| > LOOP_WINDOW then s[|s| - LOOP_WINDOW..] else s
  }

  lemma LatestSnoc(s: seq<string>, id: string)
    requires id !in Latest(s)
    ensures Latest(s + [id]) == Note(Latest(s), id)
  {
    var t := s + [id];
    if |s| >= LOOP_WINDOW {
      assert (Latest(s) + [id])[1..] == t[|t| - LOOP_WINDOW..];
    } else {
      assert Latest(t) == t;
    }
  }

  /** The window is exactly the latest 4096 admissions. */
  lemma {:induction false} WindowIsLatest(ids: seq<string>)
    ensures WindowAfter(ids) == Latest(Admitted(ids))
  {
    if ids == [] {
    } else {
      var front, id := ids[..|ids| - 1], ids[|ids| - 1];
      WindowIsLatest(front);
      if id !in WindowAfter(front) { LatestSnoc(Admitted(front), id); }
    }
  }

  ghost predicate Spread(s: seq<string>) {
    forall i, j :: 0 <= i < j < |s| && s[i] == s[j] ==> j - i > LOOP_WINDOW
  }

  lemma SpreadSnoc(s: seq<string>, id: string)
    requires Spread(s) && id !in Latest(s)
    ensures Spread(s + [id])
  {
    var t := s + [id];
    forall i, j | 0 <= i < j < |t| && t[i] == t[j] ensures j - i > LOOP_WINDOW {
      if j == |s| { LatestAt(s, i); }
    }
  }

  lemma LatestAt(s: seq<string>, i: nat)
    requires i < |s|
    ensures |s| - i > LOOP_WINDOW || s[i] in Latest(s)
  {
    if |s| - i <= LOOP_WINDOW {
      var k := if |s| > LOOP_WINDOW then i - (|s| - LOOP_WINDOW) else i;
      assert Latest(s)[k] == s[i];
    }
  }

  /** An id is let in again only after 4096 other admissions: any 4097 admissions in a row
      are of different ids. */
  lemma {:induction false} ReadmittedLate(ids: seq<string>)
    ensures Spread(Admitted(ids))
  {
    if ids == [] {
    } else {
      var front, id := ids[..|ids| - 1], ids[|ids| - 1];
      ReadmittedLate(front);
      WindowIsLatest(front);
      if id !in WindowAfter(front) { SpreadSnoc(Admitted(front), id); }
    }
  }

  // ------------------------------------------------------------------------ one frame

  datatype Handling =
    | OwnFrame                       // the connection is dropped
    | Known                          // seen before
    | Untopical(order: seq<string>)  // noted, nothing to deliver
    | Fresh(order: seq<string>)      // noted, delivered, passed on

  function Handle(nodeId: string, order: seq<string>, f: Frame): Handling {
    if f.origin == Some(nodeId) then OwnFrame
    else if f.id.Some? && f.id.value in order then Known
    else
      var noted := if f.id.Some? then Note(order, f.id.value) else order;
      if f.topic.None? then Untopical(noted) else Fresh(noted)
  }

  /** Every peer's queue but the skipped one has exactly the frame added. */
  ghost predicate QueuedTo(before: map<string, seq<Frame>>, after: map<string, seq<Frame>>, f: Frame, skip: Option<string>) {
    && after.Keys == before.Keys
    && (forall k :: k in after && skip != Some(k) ==> after[k] == before[k] + [f])
    && (forall k :: k in after && skip == Some(k) ==> after[k] == before[k])
  }

  class Relay {
    const nodeId: string
    var known: set<string>
    var order: seq<string>
    var queues: map<string, seq<Frame>>
    var delivered: seq<Frame>

    /** Map and queue hold the same ids, each once, and no more than the bound. */
    ghost predicate Valid() reads this {
      known == Text.Elements(order) && Text.Distinct(order) && |order| <= LOOP_WINDOW
    }

    constructor (id: string)
      ensures Valid() && nodeId == id && order == [] && queues == map[] && delivered == []
    {
      nodeId := id;
      known, order, queues, delivered := {}, [], map[], [];
    }

    method NoteSeen(id: string) returns (seen: bool)
      requires Valid()
      modifies this`known, this`order
      ensures Valid()
      ensures seen <==> id in old(order)
      ensures order == Note(old(order), id)
    {
      if id in known { return true; }
      NoteKeeps(order, id);
      known := known + {id};
      order := order + [id];
      assert known == Text.Elements(order);
      if |order| > LOOP_WINDOW {
        var oldest := order[0];
        order := order[1..];
        Evicted(old(order) + [id]);
        known := known - {oldest};
      }
      return false;
    }

    /** Returns whether the connection stays: all but the node's own frames. A frame that is
        neither the node's own nor of a known id has its id noted; if it has a topic too it is
        delivered, and queued to every peer but the sender. */
    method OnFrame(f: Frame, sender: string) returns (keep: bool)
      requires Valid()
      modifies this
      ensures Valid()
      ensures keep <==> f.origin != Some(nodeId)
      ensures var passes := f.origin != Some(nodeId) && !(f.id.Some? && f.id.value in old(order));
              && order == (if passes && f.id.Some? then Note(old(order), f.id.value) else old(order))
              && (passes && f.topic.Some? ==> delivered == old(delivered) + [f] && QueuedTo(old(queues), queues, f, Some(sender)))
              && (!(passes && f.topic.Some?) ==> delivered == old(delivered) && queues == old(queues))
    {
      if f.origin.Some? && f.origin.value == nodeId { return false; }
      if f.id.Some? {
        var seen := NoteSeen(f.id.value);
        if seen { return true; }
      }
      if f.topic.None? { return true; }
      delivered := delivered + [f];
      Enqueue(f, Some(sender));
      return true;
    }

    /** The publisher delivers to itself, does not note the id, and sends to every peer. */
    method Publish(f: Frame)
      requires Valid()
      modifies this
      ensures Valid() && order == old(order)
      ensures delivered == old(delivered) + [f]
      ensures queues.Keys == old(queues).Keys && forall k :: k in queues ==> queues[k] == old(queues)[k] + [f]
    {
      delivered := delivered + [f];
      Enqueue(f, None);
    }

    method Enqueue(f: Frame, skip: Option<string>)
      modifies this`queues
      ensures QueuedTo(old(queues), queues, f, skip)
    {
      var left := queues.Keys;
      while left != {}
        invariant left <= queues.Keys && queues.Keys == old(queues).Keys
        invariant forall k :: k in queues && (k in left || skip == Some(k)) ==> queues[k] == old(queues)[k]
        invariant forall k :: k in queues && k !in left && skip != Some(k) ==> queues[k] == old(queues)[k] + [f]
        decreases left
      {
        var k :| k in left;
        if skip != Some(k) { queues := queues[k := queues[k] + [f]]; }
        left := left - {k};
      }
    }
  }

  lemma Evicted(s: seq<string>)
    requires Text.Distinct(s) && s != []
    ensures Text.Elements(s[1..]) == Text.Elements(s) - {s[0]}
  {
    forall x ensures x in Text.Elements(s[1..]) <==> x in Text.Elements(s) - {s[0]} {
      if x in Text.Elements(s) && x != s[0] {
        var i :| 0 <= i < |s| && s[i] == x;
        assert s[1..][i - 1] == x;
      }
    }
  }
}
