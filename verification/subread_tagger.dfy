/** The subread tagger: a read-family synchroniser.  Simplex subreads of one
    split read share a tag; they are grouped until the group holds
    `splitCount` reads, and the duplex reads made from pairs of them are
    collected under the same tag.  A dispatcher releases a family once its
    group is full and exactly the expected number of duplex reads has
    arrived, rewriting the split metadata of every member.

    The worker threads and the dispatcher thread become two transitions on
    one state record: `Receive` for one message taken by a worker and
    `Dispatch` for one pass of the dispatcher after it wakes.  The locks of
    the source make each of these atomic. */
module SubreadTagger {
  import opened Common

  /** The fields of a read this node inspects or rewrites. */
  datatype TaggedRead = TaggedRead(
    id: string,
    tag: nat,
    isDuplex: bool,
    splitCount: nat,
    subreadId: nat,
    duplexCandidates: nat)

  /** A pipeline message: a read, or any other kind of message. */
  datatype Message = ReadMessage(read: TaggedRead) | OtherMessage(kind: nat)

  /** A complete group of subreads and the number of duplex reads its
      candidate pairs promise. */
  datatype FullGroup = FullGroup(subreads: seq<TaggedRead>, expectedDuplex: nat)

  /** The node's state: the groups still filling, the full groups waiting
      for duplex reads, the duplex reads by tag, the tags the dispatcher has
      yet to look at, and everything sent downstream, in order. */
  datatype Tagger = Tagger(
    pending: map<nat, seq<TaggedRead>>,
    full: map<nat, FullGroup>,
    duplex: map<nat, seq<TaggedRead>>,
    updated: set<nat>,
    out: seq<TaggedRead>)

  const Empty := Tagger(map[], map[], map[], {}, [])

  /** The reads filed under `tag`, none when there is no entry. */
  function ReadsOf(m: map<nat, seq<TaggedRead>>, tag: nat): seq<TaggedRead>
  {
    if tag in m then m[tag] else []
  }

  /** The duplex reads a group's candidate pairs promise, in total. */
  function CandidateTotal(members: seq<TaggedRead>): nat
  {
    if members == [] then 0 else members[0].duplexCandidates + CandidateTotal(members[1..])
  }

  /** The least tag of a non-empty set: the first tag of an ordered set. */
  function FirstTag(tags: set<nat>): (t: nat)
    requires tags != {}
    ensures t in tags && forall u :: u in tags ==> t <= u
  {
    LeastExists(tags);
    var t :| t in tags && forall u :: u in tags ==> t <= u;
    t
  }

  lemma LeastExists(tags: set<nat>)
    requires tags != {}
    ensures exists t :: t in tags && forall u :: u in tags ==> t <= u
  {
    var x :| x in tags;
    var least := x;
    if tags != {x} {
      LeastExists(tags - {x});
      var m :| m in tags - {x} && forall u :: u in tags - {x} ==> m <= u;
      least := if x < m then x else m;
      forall u | u in tags
        ensures least <= u
      {
        if u != x {
          assert u in tags - {x};
        }
      }
    } else {
      assert forall u :: u in tags ==> x <= u;
    }
    assert least in tags && forall u :: u in tags ==> least <= u;
  }

  // --------------------------------------------------------------- worker

  /** One message through a worker.  Non-read messages are skipped.  A
      duplex read joins its tag's duplex list and flags the tag.  A simplex
      read joins its tag's group; when the group's size reaches the read's
      split count the group leaves the pending map and either goes straight
      downstream, unchanged and in arrival order, when its reads promise no
      duplex reads, or waits as a full group with its tag flagged. */
  function Receive(s: Tagger, m: Message): (s': Tagger)
    ensures m.OtherMessage? ==> s' == s
    ensures m.ReadMessage? && m.read.isDuplex ==>
              var tag := m.read.tag;
              && s'.duplex == s.duplex[tag := ReadsOf(s.duplex, tag) + [m.read]]
              && s'.updated == s.updated + {tag}
              && s'.pending == s.pending && s'.full == s.full && s'.out == s.out
    ensures m.ReadMessage? && !m.read.isDuplex ==>
              var tag := m.read.tag;
              var group := ReadsOf(s.pending, tag) + [m.read];
              && s'.duplex == s.duplex
              && (|group| != m.read.splitCount ==>
                    s' == s.(pending := s.pending[tag := group]))
              && (|group| == m.read.splitCount ==>
                    && s'.pending == s.pending - {tag}
                    && (CandidateTotal(group) == 0 ==>
                          s'.out == s.out + group && s'.full == s.full && s'.updated == s.updated)
                    && (CandidateTotal(group) > 0 ==>
                          && s'.full == s.full[tag := FullGroup(group, CandidateTotal(group))]
                          && s'.updated == s.updated + {tag}
                          && s'.out == s.out))
  {
    match m
    case OtherMessage(_) => s
    case ReadMessage(r) =>
      if r.isDuplex then
        s.(duplex := s.duplex[r.tag := ReadsOf(s.duplex, r.tag) + [r]],
           updated := s.updated + {r.tag})
      else
        var group := ReadsOf(s.pending, r.tag) + [r];
        if |group| != r.splitCount then
          s.(pending := s.pending[r.tag := group])
        else
          var expected := CandidateTotal(group);
          if expected == 0 then
            s.(pending := s.pending - {r.tag}, out := s.out + group)
          else
            s.(pending := s.pending - {r.tag},
               full := s.full[r.tag := FullGroup(group, expected)],
               updated := s.updated + {r.tag})
  }

  // ----------------------------------------------------------- dispatcher

  /** The subreads given the family's final split count; their subread
      ids are kept. */
  function RetagSubreads(subreads: seq<TaggedRead>, count: nat): (r: seq<TaggedRead>)
    ensures |r| == |subreads|
    ensures forall i :: 0 <= i < |r| ==> r[i] == subreads[i].(splitCount := count)
  {
    if subreads == [] then []
    else [subreads[0].(splitCount := count)] + RetagSubreads(subreads[1..], count)
  }

  /** The duplex reads given the family's final split count and subread ids
      counting up from `nextId`, in arrival order. */
  function RetagDuplex(members: seq<TaggedRead>, count: nat, nextId: nat): (r: seq<TaggedRead>)
    ensures |r| == |members|
    ensures forall j :: 0 <= j < |r| ==> r[j] == members[j].(splitCount := count, subreadId := nextId + j)
  {
    if members == [] then []
    else [members[0].(splitCount := count, subreadId := nextId)] + RetagDuplex(members[1..], count, nextId + 1)
  }

  /** A released family as it goes downstream: all subreads first, then
      all duplex reads; every member's split count is the family's size, and
      each duplex read's subread id is the number of subreads plus its
      arrival index. */
  function Release(subreads: seq<TaggedRead>, duplexReads: seq<TaggedRead>): (r: seq<TaggedRead>)
    ensures |r| == |subreads| + |duplexReads|
    ensures forall i :: 0 <= i < |subreads| ==> r[i] == subreads[i].(splitCount := |r|)
    ensures forall j :: 0 <= j < |duplexReads| ==>
              r[|subreads| + j] == duplexReads[j].(splitCount := |r|, subreadId := |subreads| + j)
  {
    var count := |subreads| + |duplexReads|;
    RetagSubreads(subreads, count) + RetagDuplex(duplexReads, count, |subreads|)
  }

  /** Whether the dispatcher releases `tag`: a full group exists for it and
      exactly the expected number of duplex reads has arrived. */
  predicate Ready(s: Tagger, tag: nat)
  {
    tag in s.full && |ReadsOf(s.duplex, tag)| == s.full[tag].expectedDuplex
  }

  /** One pass of the dispatcher.  With no flagged tag it does nothing.
      Otherwise it unflags the least flagged tag and releases that family
      exactly when it is ready, erasing its full group and duplex list.
      Looking at a full group's duplex list creates an empty one when there
      was none. */
  function Dispatch(s: Tagger): (s': Tagger)
    ensures s.updated == {} ==> s' == s
    ensures s.updated != {} ==>
              var tag := FirstTag(s.updated);
              && s'.updated == s.updated - {tag}
              && s'.pending == s.pending
              && (Ready(s, tag) ==>
                    && s'.out == s.out + Release(s.full[tag].subreads, ReadsOf(s.duplex, tag))
                    && s'.full == s.full - {tag}
                    && s'.duplex == s.duplex - {tag})
              && (!Ready(s, tag) ==>
                    && s'.out == s.out && s'.full == s.full
                    && (forall t :: t != tag ==> ReadsOf(s'.duplex, t) == ReadsOf(s.duplex, t))
                    && ReadsOf(s'.duplex, tag) == ReadsOf(s.duplex, tag))
  {
    if s.updated == {} then s
    else
      var tag := FirstTag(s.updated);
      var s1 := s.(updated := s.updated - {tag});
      if tag !in s.full then s1
      else
        var group := s.full[tag];
        var duplexReads := ReadsOf(s.duplex, tag);
        if |duplexReads| != group.expectedDuplex then
          s1.(duplex := s.duplex[tag := duplexReads])
        else
          s1.(full := s.full - {tag},
              duplex := s.duplex - {tag},
              out := s.out + Release(group.subreads, duplexReads))
  }

  // ------------------------------------------------------------ invariant

  predicate AllSimplexWith(members: seq<TaggedRead>, tag: nat)
  {
    forall i :: 0 <= i < |members| ==> !members[i].isDuplex && members[i].tag == tag
  }

  predicate AllDuplexWith(members: seq<TaggedRead>, tag: nat)
  {
    forall i :: 0 <= i < |members| ==> members[i].isDuplex && members[i].tag == tag
  }

  /** What the node keeps true: every buffered read sits under its own tag
      and in the buffer of its kind, pending groups are non-empty, and a full
      group always expects at least one duplex read, the total its subreads
      promise. */
  predicate Invariant(s: Tagger)
  {
    && (forall tag :: tag in s.pending ==> s.pending[tag] != [] && AllSimplexWith(s.pending[tag], tag))
    && (forall tag :: tag in s.full ==>
          var g := s.full[tag];
          && AllSimplexWith(g.subreads, tag)
          && g.expectedDuplex == CandidateTotal(g.subreads) > 0)
    && (forall tag :: tag in s.duplex ==> AllDuplexWith(s.duplex[tag], tag))
  }

  lemma ReceivePreservesInvariant(s: Tagger, m: Message)
    requires Invariant(s)
    ensures Invariant(Receive(s, m))
  {
    if m.ReadMessage? && !m.read.isDuplex {
      var r := m.read;
      var group := ReadsOf(s.pending, r.tag) + [r];
      assert AllSimplexWith(group, r.tag);
    }
  }

  lemma DispatchPreservesInvariant(s: Tagger)
    requires Invariant(s)
    ensures Invariant(Dispatch(s))
  {
  }

  /** Once released, a family is gone: a further pass over its tag, with
      nothing new received, releases nothing. */
  lemma ReleasedAtMostOnce(s: Tagger)
    requires s.updated != {} && Ready(s, FirstTag(s.updated))
    ensures var tag := FirstTag(s.updated);
            var s' := Dispatch(s);
            && tag !in s'.full && tag !in s'.duplex
            && !Ready(s', tag)
            && !Ready(Dispatch(s'.(updated := s'.updated + {tag})), tag)
  {
    var tag := FirstTag(s.updated);
    var s' := Dispatch(s);
    var s'' := s'.(updated := s'.updated + {tag});
    assert tag in s''.updated && forall u :: u in s''.updated ==> tag <= u;
    assert FirstTag(s''.updated) == tag;
  }

  /** A family with more duplex reads than expected is never released: a
      dispatch over its tag keeps its group, and a further duplex read for
      it only adds to the surplus. */
  lemma SurplusNeverReleases(s: Tagger, tag: nat, d: TaggedRead)
    requires tag in s.full && |ReadsOf(s.duplex, tag)| > s.full[tag].expectedDuplex
    requires d.isDuplex && d.tag == tag
    ensures !Ready(s, tag)
    ensures s.updated != {} && FirstTag(s.updated) == tag ==>
              var s' := Dispatch(s);
              tag in s'.full && |ReadsOf(s'.duplex, tag)| > s'.full[tag].expectedDuplex && s'.out == s.out
    ensures var s' := Receive(s, ReadMessage(d));
            tag in s'.full && |ReadsOf(s'.duplex, tag)| > s'.full[tag].expectedDuplex
  {
  }

  // ------------------------------------------------------------ scenarios

  /** Three subreads promising no duplex reads go downstream unchanged, in
      arrival order, as soon as the third arrives. */
  lemma FamilyWithoutDuplexForwardsAtOnce(f1: TaggedRead, f2: TaggedRead, f3: TaggedRead)
    requires !f1.isDuplex && !f2.isDuplex && !f3.isDuplex
    requires f1.tag == f2.tag == f3.tag
    requires f1.splitCount == f2.splitCount == f3.splitCount == 3
    requires f1.duplexCandidates == f2.duplexCandidates == f3.duplexCandidates == 0
    ensures var s1 := Receive(Empty, ReadMessage(f1));
            var s2 := Receive(s1, ReadMessage(f2));
            var s3 := Receive(s2, ReadMessage(f3));
            && s1.out == [] && s2.out == []
            && s3.out == [f1, f2, f3]
            && s3.pending == map[] && s3.full == map[] && s3.updated == {}
  {
    var s1 := Receive(Empty, ReadMessage(f1));
    var s2 := Receive(s1, ReadMessage(f2));
    assert ReadsOf(s2.pending, f3.tag) == [f1, f2];
    assert [f1, f2, f3][1..] == [f2, f3] && [f2, f3][1..] == [f3];
    assert CandidateTotal([f3]) == 0 && CandidateTotal([f2, f3]) == 0;
    assert CandidateTotal([f1, f2, f3]) == 0;
    var s3 := Receive(s2, ReadMessage(f3));
    assert s2.pending == map[f1.tag := [f1, f2]];
    assert s3.pending == map[];
    assert [f1, f2] + [f3] == [f1, f2, f3];
  }

  /** Two subreads whose candidate pairs promise one duplex read, then that
      duplex read: only after all three have arrived does a dispatch release
      the family, as the two subreads and then the duplex read, all with
      split count 3 and the duplex read with subread id 2. */
  lemma FamilyWithDuplexWaitsForIt(g1: TaggedRead, g2: TaggedRead, d: TaggedRead)
    requires !g1.isDuplex && !g2.isDuplex && d.isDuplex
    requires g1.tag == g2.tag == d.tag
    requires g1.splitCount == g2.splitCount == 2
    requires g1.duplexCandidates + g2.duplexCandidates == 1
    ensures var s1 := Receive(Empty, ReadMessage(g1));
            var s2 := Receive(s1, ReadMessage(g2));
            var s3 := Receive(s2, ReadMessage(d));
            var s4 := Dispatch(s3);
            && s1.out == [] && s2.out == [] && s3.out == []
            && Dispatch(s2).out == []
            && s4.out == [g1.(splitCount := 3), g2.(splitCount := 3),
                          d.(splitCount := 3, subreadId := 2)]
            && s4.full == map[] && s4.duplex == map[] && s4.updated == {}
  {
    var tag := g1.tag;
    var s1 := Receive(Empty, ReadMessage(g1));
    var s2 := Receive(s1, ReadMessage(g2));
    assert ReadsOf(s2.pending, tag) == [] by {
      assert s2.pending == map[];
    }
    assert [g1, g2][1..] == [g2];
    assert CandidateTotal([g2]) == g2.duplexCandidates;
    assert CandidateTotal([g1, g2]) == 1;
    assert s2.updated == {tag};
    assert FirstTag(s2.updated) == tag;
    var s3 := Receive(s2, ReadMessage(d));
    assert s3.updated == {tag};
    assert FirstTag(s3.updated) == tag;
    var r := Release([g1, g2], [d]);
    assert r == [g1.(splitCount := 3), g2.(splitCount := 3), d.(splitCount := 3, subreadId := 2)];
  }
}
