/**
 * Which answers of the director are accepted, and what becomes of them
 * (packages/gemma-director/src/validation.ts and fidelity-recovery.ts).
 *
 * `Fidelity` shows that an accepted answer covers its passages. Here is the other half: every exact
 * answer is accepted, even after no-break spaces were flattened, and its fragments are kept as they are.
 */
module AcceptedAnswers {
  import opened Wrappers
  import opened Utf16
  import opened SourceCoverage
  import opened Fidelity
  import Text

  /** Fragments as a model sends them, in UTF-16. */
  function Wired<A>(fragments: seq<Fragment<A>>): seq<Wire<A>> {
    seq(|fragments|, i requires 0 <= i < |fragments| =>
      Wire(fragments[i].passageId, Encode(fragments[i].text), fragments[i].annotation))
  }

  lemma WiredAppend<A>(a: seq<Fragment<A>>, b: seq<Fragment<A>>)
    ensures Wired(a + b) == Wired(a) + Wired(b)
  {
  }

  // ---------------------------------------------------------------- exact answers are accepted

  lemma {:induction false} WiredSpells<A>(fragments: seq<Fragment<A>>)
    ensures Concat(Wired(fragments)) == Encode(Text.Join(Texts(fragments)))
  {
    if fragments != [] {
      var rest := fragments[1..];
      WiredSpells(rest);
      assert Wired(fragments)[1..] == Wired(rest) && Texts(fragments)[1..] == Texts(rest);
      EncodeAppend(fragments[0].text, Text.Join(Texts(rest)));
    }
  }

  /** Between two encoded texts no surrogate pair is split. */
  lemma CodePointCut(a: string, b: string)
    ensures !SplitsSurrogatePair(Encode(a) + Encode(b), |Encode(a)|)
  {
    if a != "" {
      LastIsNoHigh(a);
    }
  }

  lemma {:induction false} LastIsNoHigh(s: string)
    requires s != ""
    ensures Encode(s) != [] && !IsHigh(Encode(s)[|Encode(s)| - 1])
  {
    if |s| > 1 {
      LastIsNoHigh(s[1..]);
    } else {
      assert s[1..] == "";
      assert Encode(s) == EncodeChar(s[0]);
    }
  }

  lemma CutsCleanCons<A>(first: Wire<A>, rest: seq<Wire<A>>, text: Units, cursor: nat)
    requires !SplitsSurrogatePair(text, cursor) && !SplitsSurrogatePair(text, cursor + |first.text|)
    requires CutsClean(rest, text, cursor + |first.text|)
    ensures CutsClean([first] + rest, text, cursor)
  {
    assert ([first] + rest)[1..] == rest;
  }

  lemma WiredCons<A>(fragments: seq<Fragment<A>>)
    requires fragments != []
    ensures Wired(fragments)
         == [Wire(fragments[0].passageId, Encode(fragments[0].text), fragments[0].annotation)] + Wired(fragments[1..])
  {
  }

  lemma {:induction false} WiredCutsClean<A>(fragments: seq<Fragment<A>>, before: string, text: Units)
    requires text == Encode(before) + Concat(Wired(fragments))
    ensures CutsClean(Wired(fragments), text, |Encode(before)|)
    decreases |fragments|
  {
    if fragments != [] {
      var rest := fragments[1..];
      NextCut(fragments, before, text);
      WiredCutsClean(rest, before + fragments[0].text, text);
      WiredCons(fragments);
      CutsCleanCons(Wire(fragments[0].passageId, Encode(fragments[0].text), fragments[0].annotation), Wired(rest), text,
                    |Encode(before)|);
    }
  }

  /** Both ends of the first fragment fall between code points. */
  lemma NextCut<A>(fragments: seq<Fragment<A>>, before: string, text: Units)
    requires fragments != [] && text == Encode(before) + Concat(Wired(fragments))
    ensures var next := before + fragments[0].text;
            && text == Encode(next) + Concat(Wired(fragments[1..]))
            && |Encode(next)| == |Encode(before)| + |Encode(fragments[0].text)|
            && !SplitsSurrogatePair(text, |Encode(before)|) && !SplitsSurrogatePair(text, |Encode(next)|)
  {
    var first, rest := fragments[0].text, fragments[1..];
    assert Wired(fragments)[1..] == Wired(rest);
    WiredSpells(fragments);
    WiredSpells(rest);
    CodePointCut(before, Text.Join(Texts(fragments)));
    EncodeAppend(before, first);
    CodePointCut(before + first, Text.Join(Texts(rest)));
    Associative(Encode(before), Encode(first), Concat(Wired(rest)));
  }

  lemma {:induction false} BucketOfOthers<A>(output: seq<Wire<A>>, id: string)
    requires forall i | 0 <= i < |output| :: output[i].passageId != id
    ensures Bucket(output, id) == []
  {
    if output != [] {
      BucketOfOthers(output[1..], id);
    }
  }

  lemma {:induction false} BucketOfOwn<A>(output: seq<Wire<A>>, id: string)
    requires forall i | 0 <= i < |output| :: output[i].passageId == id
    ensures Bucket(output, id) == output
  {
    if output != [] {
      BucketOfOwn(output[1..], id);
    }
  }

  lemma GroupIsAccepted<A>(passage: Passage, group: seq<Fragment<A>>)
    requires GroupCovers(group, passage)
    ensures AcceptedPassage(passage, Wired(group))
  {
    WiredSpells(group);
    assert Encode("") + Concat(Wired(group)) == Concat(Wired(group));
    WiredCutsClean(group, "", Concat(Wired(group)));
  }

  /** The bucket of a passage is its own group, however many other passages come before and behind. */
  lemma {:induction false} BucketIsGroup<A>(passages: seq<Passage>, groups: seq<seq<Fragment<A>>>, k: nat)
    requires ProperPassages(passages) && |groups| == |passages| && k < |passages|
    requires forall i | 0 <= i < |passages| :: GroupCovers(groups[i], passages[i])
    ensures Bucket(Wired(Flatten(groups)), passages[k].id) == Wired(groups[k])
    decreases |passages|
  {
    var first, rest := groups[0], Flatten(groups[1..]);
    WiredAppend(first, rest);
    BucketAppend(Wired(first), Wired(rest), passages[k].id);
    assert GroupCovers(groups[0], passages[0]);
    forall i | 0 <= i < |passages| - 1 ensures GroupCovers(groups[1..][i], passages[1..][i]) {
      assert GroupCovers(groups[i + 1], passages[i + 1]);
    }
    if k == 0 {
      forall i | 0 <= i < |Wired(first)| ensures Wired(first)[i].passageId == passages[0].id {
        assert first[i].passageId == passages[0].id;
      }
      BucketOfOwn(Wired(first), passages[0].id);
      NamesOfRest(passages, groups, rest);
      forall i | 0 <= i < |Wired(rest)| ensures Wired(rest)[i].passageId != passages[0].id {
        assert rest[i].passageId != passages[0].id;
      }
      BucketOfOthers(Wired(rest), passages[0].id);
    } else {
      assert passages[0].id != passages[k].id;
      forall i | 0 <= i < |Wired(first)| ensures Wired(first)[i].passageId != passages[k].id {
        assert first[i].passageId == passages[0].id;
      }
      BucketOfOthers(Wired(first), passages[k].id);
      BucketIsGroup(passages[1..], groups[1..], k - 1);
    }
  }

  lemma {:induction false} FlattenNames<A>(passages: seq<Passage>, groups: seq<seq<Fragment<A>>>)
    requires |groups| == |passages| && forall i | 0 <= i < |passages| :: GroupCovers(groups[i], passages[i])
    ensures forall f | f in Flatten(groups) :: exists i | 0 <= i < |passages| :: f.passageId == passages[i].id
    decreases |passages|
  {
    if passages != [] {
      assert GroupCovers(groups[0], passages[0]);
      forall i | 0 <= i < |passages| - 1 ensures GroupCovers(groups[1..][i], passages[1..][i]) {
        assert GroupCovers(groups[i + 1], passages[i + 1]);
      }
      FlattenNames(passages[1..], groups[1..]);
      forall f | f in Flatten(groups) ensures exists i | 0 <= i < |passages| :: f.passageId == passages[i].id {
        if f in groups[0] {
          assert f.passageId == passages[0].id;
        } else {
          var i :| 0 <= i < |passages| - 1 && f.passageId == passages[1..][i].id;
          assert passages[i + 1].id == f.passageId;
        }
      }
    }
  }

  lemma NamesOfRest<A>(passages: seq<Passage>, groups: seq<seq<Fragment<A>>>, rest: seq<Fragment<A>>)
    requires ProperPassages(passages) && passages != [] && |groups| == |passages| && rest == Flatten(groups[1..])
    requires forall i | 0 <= i < |passages| :: GroupCovers(groups[i], passages[i])
    ensures forall i | 0 <= i < |rest| :: rest[i].passageId != passages[0].id
  {
    forall i | 0 <= i < |passages| - 1 ensures GroupCovers(groups[1..][i], passages[1..][i]) {
      assert GroupCovers(groups[i + 1], passages[i + 1]);
    }
    FlattenNames(passages[1..], groups[1..]);
    forall i | 0 <= i < |rest| ensures rest[i].passageId != passages[0].id {
      assert rest[i] in rest;
    }
  }

  lemma OwnIndex(passages: seq<Passage>, i: nat)
    requires ProperPassages(passages) && i < |passages|
    ensures IndexOf(passages, passages[i].id) == Some(i)
  {
  }

  lemma {:induction false} OrderedGroup<A>(passages: seq<Passage>, group: seq<Fragment<A>>, i: nat, tail: seq<Wire<A>>, last: int)
    requires ProperPassages(passages) && i < |passages| && OfPassage(group, passages[i].id) && last <= i
    requires OrderedFrom(passages, tail, i) && group != []
    ensures OrderedFrom(passages, Wired(group) + tail, last)
    decreases |group|
  {
    var all := Wired(group) + tail;
    OwnIndex(passages, i);
    assert all[0].passageId == passages[i].id;
    assert all[1..] == Wired(group[1..]) + tail;
    if |group| > 1 {
      OrderedGroup(passages, group[1..], i, tail, i);
    } else {
      assert Wired(group[1..]) + tail == tail;
    }
  }

  lemma {:induction false} OrderedGroups<A>(passages: seq<Passage>, groups: seq<seq<Fragment<A>>>, i: nat, last: int)
    requires ProperPassages(passages) && |groups| == |passages| && i <= |passages| && last <= i
    requires forall k | 0 <= k < |passages| :: GroupCovers(groups[k], passages[k])
    ensures OrderedFrom(passages, Wired(Flatten(groups[i..])), last)
    decreases |passages| - i
  {
    if i < |passages| {
      var rest := Flatten(groups[i + 1..]);
      assert groups[i..][1..] == groups[i + 1..];
      WiredAppend(groups[i], rest);
      assert GroupCovers(groups[i], passages[i]);
      OrderedGroups(passages, groups, i + 1, i);
      OrderedGroup(passages, groups[i], i, Wired(rest), last);
    }
  }

  lemma {:induction false} EachAccepted<A>(passages: seq<Passage>, output: seq<Wire<A>>)
    requires forall k | 0 <= k < |passages| :: AcceptedPassage(passages[k], Bucket(output, passages[k].id))
    ensures AllAccepted(passages, output)
    decreases |passages|
  {
    if passages != [] {
      assert forall k | 0 <= k < |passages[1..]| :: passages[1..][k] == passages[k + 1];
      EachAccepted(passages[1..], output);
    }
  }

  /** Every answer whose fragments cover the passages exactly and in order is accepted as it is. */
  lemma ExactAnswerIsAccepted<A>(passages: seq<Passage>, groups: seq<seq<Fragment<A>>>, directed: seq<Fragment<A>>)
    requires ProperPassages(passages) && ExactCoverage(passages, groups, directed)
    ensures Faithful(passages, Wired(directed)) && RepairAll(passages, Wired(directed)) == Wired(directed)
  {
    forall k | 0 <= k < |passages| ensures AcceptedPassage(passages[k], Bucket(Wired(directed), passages[k].id)) {
      BucketIsGroup(passages, groups, k);
      assert GroupCovers(groups[k], passages[k]);
      GroupIsAccepted(passages[k], groups[k]);
    }
    EachAccepted(passages, Wired(directed));
    assert groups[0..] == groups;
    OrderedGroups(passages, groups, 0, -1);
    FaithfulNeedsNoRepair(passages, Wired(directed));
  }

  // ---------------------------------------------------------------- and so are those with flattened spaces

  /** `echo` shows ordinary spaces in place of some no-break spaces. */
  predicate Flattened(text: Units, echo: Units) {
    |echo| == |text| && forall i | 0 <= i < |text| :: echo[i] == text[i] || (text[i] == NBSP && echo[i] == SPACE)
  }

  ghost predicate EachFlattened<A>(sent: seq<Wire<A>>, echo: seq<Wire<A>>) {
    |echo| == |sent| && forall i | 0 <= i < |sent| ::
      echo[i].passageId == sent[i].passageId && echo[i].annotation == sent[i].annotation && Flattened(sent[i].text, echo[i].text)
  }

  lemma {:induction false} BucketsFlattened<A>(sent: seq<Wire<A>>, echo: seq<Wire<A>>, id: string)
    requires EachFlattened(sent, echo)
    ensures EachFlattened(Bucket(sent, id), Bucket(echo, id))
  {
    if sent != [] {
      assert forall i | 0 <= i < |sent| - 1 :: sent[1..][i] == sent[i + 1] && echo[1..][i] == echo[i + 1];
      BucketsFlattened(sent[1..], echo[1..], id);
    }
  }

  lemma FlattenedAppend(a: Units, b: Units, a': Units, b': Units)
    requires Flattened(a, a') && Flattened(b, b')
    ensures Flattened(a + b, a' + b')
  {
  }

  lemma {:induction false} ConcatFlattened<A>(sent: seq<Wire<A>>, echo: seq<Wire<A>>)
    requires EachFlattened(sent, echo)
    ensures Flattened(Concat(sent), Concat(echo))
  {
    if sent != [] {
      assert forall i | 0 <= i < |sent| - 1 :: sent[1..][i] == sent[i + 1] && echo[1..][i] == echo[i + 1];
      ConcatFlattened(sent[1..], echo[1..]);
      FlattenedAppend(sent[0].text, Concat(sent[1..]), echo[0].text, Concat(echo[1..]));
    }
  }

  lemma {:induction false} ShapeOfBucket<A>(a: seq<Wire<A>>, b: seq<Wire<A>>, id: string)
    requires SameShape(a, b)
    ensures SameShape(Bucket(a, id), Bucket(b, id))
  {
    if a != [] {
      assert forall i | 0 <= i < |a| - 1 :: a[1..][i] == a[i + 1] && b[1..][i] == b[i + 1];
      ShapeOfBucket(a[1..], b[1..], id);
    }
  }

  lemma {:induction false} SameText<A>(a: seq<Wire<A>>, b: seq<Wire<A>>)
    requires SameShape(a, b) && Concat(a) == Concat(b)
    ensures a == b
  {
    if a != [] {
      var n := |a[0].text|;
      assert a[0].text == Concat(a)[..n] && b[0].text == Concat(b)[..n];
      assert Concat(a[1..]) == Concat(a)[n..] && Concat(b[1..]) == Concat(b)[n..];
      assert forall i | 0 <= i < |a| - 1 :: a[1..][i] == a[i + 1] && b[1..][i] == b[i + 1];
      SameText(a[1..], b[1..]);
    }
  }

  lemma {:induction false} SameBuckets<A>(a: seq<Wire<A>>, b: seq<Wire<A>>)
    requires SameShape(a, b)
    requires forall i | 0 <= i < |a| :: Bucket(a, a[i].passageId) == Bucket(b, a[i].passageId)
    ensures a == b
  {
    if a != [] {
      assert a[0].passageId == b[0].passageId;
      assert Bucket(a, a[0].passageId)[0] == a[0] && Bucket(b, a[0].passageId)[0] == b[0];
      var restA, restB := a[1..], b[1..];
      forall i | 0 <= i < |restA| ensures Bucket(restA, restA[i].passageId) == Bucket(restB, restA[i].passageId) {
        assert restA[i] == a[i + 1];
        var id := restA[i].passageId;
        if id == a[0].passageId {
          assert Bucket(restA, id) == Bucket(a, id)[1..] && Bucket(restB, id) == Bucket(b, id)[1..];
        }
      }
      assert forall i | 0 <= i < |restA| :: restA[i] == a[i + 1] && restB[i] == b[i + 1];
      SameBuckets(restA, restB);
    }
  }

  /** The repair gives back an exact answer whose no-break spaces were flattened, in any of its places. */
  lemma FlattenedAnswerIsRepaired<A>(passages: seq<Passage>, groups: seq<seq<Fragment<A>>>, directed: seq<Fragment<A>>,
                                     echo: seq<Wire<A>>)
    requires ProperPassages(passages) && ExactCoverage(passages, groups, directed) && EachFlattened(Wired(directed), echo)
    ensures RepairAll(passages, echo) == Wired(directed) && Faithful(passages, RepairAll(passages, echo))
  {
    var sent, repaired := Wired(directed), RepairAll(passages, echo);
    ExactAnswerIsAccepted(passages, groups, directed);
    RepairIsExactOrAbsent(passages, echo);
    assert SameShape(sent, repaired);
    forall i | 0 <= i < |sent| ensures Bucket(sent, sent[i].passageId) == Bucket(repaired, sent[i].passageId) {
      FlattenNames(passages, groups);
      assert directed[i] in directed;
      var k :| 0 <= k < |passages| && directed[i].passageId == passages[k].id;
      BucketIsRepaired(passages, groups, directed, echo, k);
    }
    SameBuckets(sent, repaired);
  }

  lemma BucketIsRepaired<A>(passages: seq<Passage>, groups: seq<seq<Fragment<A>>>, directed: seq<Fragment<A>>,
                            echo: seq<Wire<A>>, k: nat)
    requires ProperPassages(passages) && ExactCoverage(passages, groups, directed) && EachFlattened(Wired(directed), echo)
    requires k < |passages|
    ensures Bucket(Wired(directed), passages[k].id) == Bucket(RepairAll(passages, echo), passages[k].id)
  {
    var id, sent, repaired := passages[k].id, Wired(directed), RepairAll(passages, echo);
    RepairIsExactOrAbsent(passages, echo);
    BucketIsGroup(passages, groups, k);
    assert GroupCovers(groups[k], passages[k]);
    WiredSpells(groups[k]);
    BucketsFlattened(sent, echo, id);
    ConcatFlattened(Bucket(sent, id), Bucket(echo, id));
    assert Concat(Bucket(repaired, id)) == Encode(passages[k].text);
    assert SameShape(sent, repaired);
    ShapeOfBucket(sent, repaired, id);
    SameText(Bucket(sent, id), Bucket(repaired, id));
  }

  // ---------------------------------------------------------------- accepted fragments are kept

  /** The fragment that one item of an answer stands for. */
  function Meant<A>(item: Wire<A>): Fragment<A> {
    Fragment(item.passageId, Decode(item.text), item.annotation)
  }

  function AllMeant<A>(output: seq<Wire<A>>): seq<Fragment<A>> {
    seq(|output|, i requires 0 <= i < |output| => Meant(output[i]))
  }

  lemma AllMeantAppend<A>(a: seq<Wire<A>>, b: seq<Wire<A>>)
    ensures AllMeant(a + b) == AllMeant(a) + AllMeant(b)
  {
  }

  lemma DirectedAppend<A>(a: seq<Derived<A>>, b: seq<Derived<A>>)
    ensures Directed(a + b) == Directed(a) + Directed(b)
  {
  }

  lemma {:induction false} RangesMean<A>(fragments: seq<Wire<A>>, text: Units, cursor: nat)
    requires cursor <= |text| && Concat(fragments) == text[cursor..]
    ensures Directed(RangesOf(fragments, text, cursor)) == AllMeant(fragments)
    decreases |fragments|
  {
    if fragments != [] {
      var first, rest := fragments[0], fragments[1..];
      var end := cursor + |first.text|;
      assert text[cursor..end] == text[cursor..][..|first.text|] == first.text;
      assert Concat(rest) == text[cursor..][|first.text|..] == text[end..];
      RangesMean(rest, text, end);
      var derived := Derived(first, cursor, end, text[cursor..end]);
      DirectedAppend([derived], RangesOf(rest, text, end));
      AllMeantAppend([first], rest);
      assert [first] + rest == fragments && Directed([derived]) == [Meant(first)] && AllMeant([first]) == [Meant(first)];
    }
  }

  lemma {:induction false} RangesOfAll<A>(passages: seq<Passage>, i: nat, output: seq<Wire<A>>)
    requires i <= |passages| && forall k | i <= k < |passages| :: AcceptedPassage(passages[k], Bucket(output, passages[k].id))
    ensures Directed(AllRanges(passages[i..], output)) == AllMeant(InPassageOrder(passages, i, output))
    decreases |passages| - i
  {
    if i < |passages| {
      var own, text := Bucket(output, passages[i].id), Encode(passages[i].text);
      assert passages[i..][1..] == passages[i + 1..];
      assert text[0..] == text;
      RangesMean(own, text, 0);
      RangesOfAll(passages, i + 1, output);
      DirectedAppend(PassageRanges(passages[i], own), AllRanges(passages[i + 1..], output));
      AllMeantAppend(own, InPassageOrder(passages, i + 1, output));
    }
  }

  lemma {:induction false} AcceptedEach<A>(passages: seq<Passage>, output: seq<Wire<A>>)
    requires AllAccepted(passages, output)
    ensures forall k | 0 <= k < |passages| :: AcceptedPassage(passages[k], Bucket(output, passages[k].id))
    decreases |passages|
  {
    if passages != [] {
      AcceptedEach(passages[1..], output);
      assert forall k | 1 <= k < |passages| :: passages[k] == passages[1..][k - 1];
    }
  }

  /** An accepted answer is kept item by item: passage, text and annotation of each, in its order. */
  lemma AcceptedIsKept<A>(passages: seq<Passage>, output: seq<Wire<A>>)
    requires ProperPassages(passages) && Faithful(passages, output)
    ensures Directed(AllRanges(passages, output)) == AllMeant(output)
  {
    AcceptedEach(passages, output);
    RangesOfAll(passages, 0, output);
    assert passages[0..] == passages;
    OrderedIsPassageOrder(passages, output, -1);
  }
}
