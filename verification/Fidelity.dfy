/** UTF-16 code units and the code points they encode. */
module Utf16 {

  type Unit = n: int | 0 <= n < 0x10000

  type Units = seq<Unit>

  function EncodeChar(c: char): Units {
    var n := c as int;
    if n < 0x10000 then [n] else [0xD800 + (n - 0x10000) / 0x400, 0xDC00 + (n - 0x10000) % 0x400]
  }

  function Encode(s: string): Units {
    if s == "" then [] else EncodeChar(s[0]) + Encode(s[1..])
  }

  predicate IsHigh(u: Unit) {
    0xD800 <= u <= 0xDBFF
  }

  predicate IsLow(u: Unit) {
    0xDC00 <= u <= 0xDFFF
  }

  /** Reads one code point; a lone surrogate reads as U+FFFD. */
  function DecodeFirst(units: Units): (char, nat)
    requires units != []
  {
    if IsHigh(units[0]) && |units| > 1 && IsLow(units[1])
    then
      var high: int := units[0];
      var low: int := units[1];
      ((0x10000 + (high - 0xD800) * 0x400 + (low - 0xDC00)) as char, 2)
    else if IsHigh(units[0]) || IsLow(units[0]) then ('\U{FFFD}', 1)
    else (units[0] as char, 1)
  }

  function Decode(units: Units): string {
    if units == [] then ""
    else
      var (c, used) := DecodeFirst(units);
      [c] + Decode(units[used..])
  }

  /** packages/gemma-director/src/validation.ts:96-101 */
  predicate SplitsSurrogatePair(text: Units, offset: nat) {
    0 < offset < |text| && IsHigh(text[offset - 1]) && IsLow(text[offset])
  }

  lemma {:induction false} EncodeAppend(a: string, b: string)
    ensures Encode(a + b) == Encode(a) + Encode(b)
  {
    if a == "" {
      assert a + b == b;
    } else {
      EncodeAppend(a[1..], b);
      assert (a + b)[1..] == a[1..] + b && (a + b)[0] == a[0];
      var first, middle, last := EncodeChar(a[0]), Encode(a[1..]), Encode(b);
      assert first + (middle + last) == (first + middle) + last;
    }
  }

  /** Decoding undoes the encoding of one code point. */
  lemma FirstDecodes(c: char, rest: Units)
    ensures DecodeFirst(EncodeChar(c) + rest) == (c, |EncodeChar(c)|)
  {
    var n := c as int;
    if n >= 0x10000 {
      var high, low := (n - 0x10000) / 0x400, (n - 0x10000) % 0x400;
      assert n - 0x10000 == high * 0x400 + low && high < 0x400;
    }
  }

  lemma DecodeStep(c: char, rest: Units)
    ensures Decode(EncodeChar(c) + rest) == [c] + Decode(rest)
  {
    FirstDecodes(c, rest);
    assert (EncodeChar(c) + rest)[|EncodeChar(c)|..] == rest;
  }

  lemma {:induction false} DecodeEncode(s: string)
    ensures Decode(Encode(s)) == s
  {
    if s != "" {
      DecodeEncode(s[1..]);
      DecodeStep(s[0], Encode(s[1..]));
      assert s == [s[0]] + s[1..];
    }
  }

  lemma EncodeCons(c: char, s: string)
    ensures Encode([c] + s) == EncodeChar(c) + Encode(s)
  {
    assert ([c] + s)[1..] == s;
  }

  lemma CutSkipsFirst(c: char, rest: Units, offset: nat)
    requires 0 < offset <= |EncodeChar(c) + rest| && !SplitsSurrogatePair(EncodeChar(c) + rest, offset)
    ensures |EncodeChar(c)| <= offset
  {
    var first := EncodeChar(c);
    if |first| == 2 {
      assert (first + rest)[0] == first[0] && (first + rest)[1] == first[1];
    }
  }

  lemma SplitsInRest(first: Units, rest: Units, offset: nat)
    requires !SplitsSurrogatePair(first + rest, |first| + offset)
    ensures !SplitsSurrogatePair(rest, offset)
  {
  }

  /** A cut that does not split a surrogate pair falls between two code points. */
  lemma {:induction false} CutIsCodePointBoundary(s: string, offset: nat) returns (k: nat)
    requires offset <= |Encode(s)| && !SplitsSurrogatePair(Encode(s), offset)
    ensures k <= |s|
    ensures Encode(s[..k]) == Encode(s)[..offset]
    ensures Encode(s[k..]) == Encode(s)[offset..]
  {
    if offset == 0 {
      k := 0;
      assert s[0..] == s;
    } else {
      var first, rest := EncodeChar(s[0]), Encode(s[1..]);
      CutSkipsFirst(s[0], rest, offset);
      SplitsInRest(first, rest, offset - |first|);
      k := CutIsCodePointBoundary(s[1..], offset - |first|);
      CutBehindFirst(s, offset - |first|, k);
      k := k + 1;
    }
  }

  /** A code-point cut of the rest is one of the whole, behind its first code point. */
  lemma CutBehindFirst(s: string, offset: nat, k: nat)
    requires s != "" && k < |s| && offset <= |Encode(s[1..])|
    requires Encode(s[1..][..k]) == Encode(s[1..])[..offset] && Encode(s[1..][k..]) == Encode(s[1..])[offset..]
    ensures Encode(s[..k + 1]) == Encode(s)[..|EncodeChar(s[0])| + offset]
    ensures Encode(s[k + 1..]) == Encode(s)[|EncodeChar(s[0])| + offset..]
  {
    EncodeCons(s[0], s[1..][..k]);
    assert s[..k + 1] == [s[0]] + s[1..][..k];
    assert s[k + 1..] == s[1..][k..];
    SumCuts(EncodeChar(s[0]), Encode(s[1..]), offset);
  }

  lemma SumCuts(first: Units, rest: Units, offset: nat)
    requires offset <= |rest|
    ensures (first + rest)[..|first| + offset] == first + rest[..offset]
    ensures (first + rest)[|first| + offset..] == rest[offset..]
  {
  }
}

/**
 * Mechanical repair and deterministic fidelity of director output
 * (packages/gemma-director/src/fidelity-recovery.ts, packages/gemma-director/src/validation.ts).
 */
module Fidelity {
  import opened Wrappers
  import opened Utf16
  import opened SourceCoverage
  import Text

  datatype Wire<A> = Wire(passageId: string, text: Units, annotation: A)

  datatype FindingCode =
    | TextOmission
    | TextInsertion
    | TextDuplication
    | TextSubstitution
    | PassageReorder
    | UnknownPassage
    | SplitGrapheme

  datatype Finding = Finding(code: FindingCode, passageId: string)

  /** A fragment with the range of its passage that it covers, in UTF-16 units. */
  datatype Derived<A> = Derived(item: Wire<A>, start: nat, end: nat, text: Units)

  function Concat<A>(fragments: seq<Wire<A>>): Units {
    if fragments == [] then [] else fragments[0].text + Concat(fragments[1..])
  }

  /** The fragments of one passage, in output order. */
  function Bucket<A>(output: seq<Wire<A>>, id: string): seq<Wire<A>> {
    if output == [] then []
    else if output[0].passageId == id then [output[0]] + Bucket(output[1..], id)
    else Bucket(output[1..], id)
  }

  lemma {:induction false} BucketAppend<A>(a: seq<Wire<A>>, b: seq<Wire<A>>, id: string)
    ensures Bucket(a + b, id) == Bucket(a, id) + Bucket(b, id)
  {
    if a == [] {
      assert a + b == b;
    } else {
      BucketAppend(a[1..], b, id);
      assert (a + b)[1..] == a[1..] + b;
    }
  }

  lemma {:induction false} ConcatAppend<A>(a: seq<Wire<A>>, b: seq<Wire<A>>)
    ensures Concat(a + b) == Concat(a) + Concat(b)
  {
    if a == [] {
      assert a + b == b;
    } else {
      ConcatAppend(a[1..], b);
      assert (a + b)[1..] == a[1..] + b;
      Associative(a[0].text, Concat(a[1..]), Concat(b));
    }
  }

  lemma Associative(a: Units, b: Units, c: Units)
    ensures a + (b + c) == (a + b) + c
  {
  }

  // ---------------------------------------------------------------- how two texts differ

  /** `longer` is `shorter` with a block of `n` units inserted at `at`. */
  predicate InsertedAt(shorter: Units, longer: Units, at: nat, n: nat) {
    && at <= |shorter| && |longer| == |shorter| + n
    && (forall i | 0 <= i < at :: longer[i] == shorter[i])
    && (forall i {:trigger shorter[i]} | at <= i < |shorter| :: longer[i + n] == shorter[i])
  }

  ghost predicate Inserts(shorter: Units, longer: Units) {
    exists at: nat, n: nat :: InsertedAt(shorter, longer, at, n)
  }

  ghost predicate Repeats(expected: Units, actual: Units) {
    exists at: nat, n: nat :: RepeatedAt(expected, actual, at, n)
  }

  /** A block is doubled: the copy ending at `at` and the one after it both read as the insertion. */
  predicate RepeatedAt(expected: Units, actual: Units, at: nat, n: nat) {
    0 < n <= at && InsertedAt(expected, actual, at, n) && InsertedAt(expected, actual, at - n, n)
  }

  /** `prefix` and `suffix` are common ends that cannot be made longer. */
  predicate MaximalEnds(a: Units, b: Units, prefix: nat, suffix: nat) {
    && prefix + suffix <= |a| && prefix + suffix <= |b|
    && (forall i | 0 <= i < prefix :: a[i] == b[i])
    && (forall i {:trigger a[i]} | |a| - suffix <= i < |a| :: a[i] == b[i + |b| - |a|])
    && (prefix < |a| && prefix < |b| ==> a[prefix] != b[prefix])
    && (prefix + suffix < |a| && prefix + suffix < |b| ==> a[|a| - 1 - suffix] != b[|b| - 1 - suffix])
  }

  method CommonEnds(expected: Units, actual: Units) returns (prefix: nat, suffix: nat)
    ensures MaximalEnds(expected, actual, prefix, suffix)
  {
    prefix := 0;
    while prefix < |expected| && prefix < |actual| && expected[prefix] == actual[prefix]
      invariant prefix <= |expected| && prefix <= |actual|
      invariant forall i | 0 <= i < prefix :: expected[i] == actual[i]
    {
      prefix := prefix + 1;
    }
    suffix := 0;
    while
      && suffix < |expected| - prefix && suffix < |actual| - prefix
      && expected[|expected| - 1 - suffix] == actual[|actual| - 1 - suffix]
      invariant prefix + suffix <= |expected| && prefix + suffix <= |actual|
      invariant forall i {:trigger expected[i]} | |expected| - suffix <= i < |expected|
        :: expected[i] == actual[i + |actual| - |expected|]
    {
      suffix := suffix + 1;
    }
  }

  /** Maximal common ends meet exactly when one text is the other with one block inserted. */
  lemma EndsMeetIff(shorter: Units, longer: Units, prefix: nat, suffix: nat)
    requires MaximalEnds(shorter, longer, prefix, suffix)
    ensures prefix + suffix == |shorter| <==> Inserts(shorter, longer)
    ensures prefix + suffix == |shorter| ==> InsertedAt(shorter, longer, prefix, |longer| - |shorter|)
  {
    if prefix + suffix == |shorter| {
      var n := |longer| - |shorter|;
      assert InsertedAt(shorter, longer, prefix, n);
    }
    forall at: nat, n: nat | InsertedAt(shorter, longer, at, n) ensures prefix + suffix == |shorter| {
      PrefixReaches(shorter, longer, at, n, prefix);
    }
  }

  lemma PrefixReaches(shorter: Units, longer: Units, at: nat, n: nat, prefix: nat)
    requires InsertedAt(shorter, longer, at, n) && prefix <= |shorter| && prefix <= |longer|
    requires forall i | 0 <= i < prefix :: shorter[i] == longer[i]
    requires prefix < |shorter| && prefix < |longer| ==> shorter[prefix] != longer[prefix]
    ensures at <= prefix && InsertedAt(shorter, longer, prefix, n)
  {
  }

  lemma RepetitionAtPrefix(expected: Units, actual: Units, at: nat, n: nat, prefix: nat)
    requires RepeatedAt(expected, actual, at, n) && prefix <= |expected|
    requires forall i | 0 <= i < prefix :: expected[i] == actual[i]
    requires prefix < |expected| ==> expected[prefix] != actual[prefix]
    ensures n <= prefix && expected[prefix - n..prefix] == actual[prefix..prefix + n]
  {
    PrefixReaches(expected, actual, at, n, prefix);
    forall j | prefix - n <= j < prefix ensures actual[j + n] == expected[j] {
    }
    var kept, copied := expected[prefix - n..prefix], actual[prefix..prefix + n];
    forall k | 0 <= k < n ensures kept[k] == copied[k] {
      assert kept[k] == expected[prefix - n + k];
    }
  }

  lemma CopyIsRepetition(expected: Units, actual: Units, prefix: nat, n: nat)
    requires n > 0 && InsertedAt(expected, actual, prefix, n)
    ensures n <= prefix && expected[prefix - n..prefix] == actual[prefix..prefix + n]
        ==> RepeatedAt(expected, actual, prefix, n)
    ensures prefix + n <= |expected| && expected[prefix..prefix + n] == actual[prefix..prefix + n]
        ==> RepeatedAt(expected, actual, prefix + n, n)
  {
    var middle := actual[prefix..prefix + n];
    if n <= prefix && expected[prefix - n..prefix] == middle {
      forall i | prefix - n <= i < prefix ensures actual[i + n] == expected[i] {
        assert middle[i + n - prefix] == expected[prefix - n..prefix][i + n - prefix];
      }
    }
    if prefix + n <= |expected| && expected[prefix..prefix + n] == middle {
      forall i | prefix <= i < prefix + n ensures actual[i] == expected[i] {
        assert middle[i - prefix] == expected[prefix..prefix + n][i - prefix];
      }
    }
  }

  predicate CopiesNeighbour(expected: Units, prefix: nat, middle: Units)
    requires prefix <= |expected|
  {
    var width := |middle|;
    var before := expected[if prefix < width then 0 else prefix - width..prefix];
    var after := expected[prefix..if prefix + width > |expected| then |expected| else prefix + width];
    width > 0 && (middle == before || middle == after)
  }

  lemma CopyRepeats(expected: Units, actual: Units, prefix: nat, suffix: nat)
    requires MaximalEnds(expected, actual, prefix, suffix) && prefix + suffix == |expected|
    requires CopiesNeighbour(expected, prefix, actual[prefix..|actual| - suffix])
    ensures Repeats(expected, actual)
  {
    EndsMeetIff(expected, actual, prefix, suffix);
    CopyIsRepetition(expected, actual, prefix, |actual| - |expected|);
  }

  lemma RepeatsIff(expected: Units, actual: Units, prefix: nat, suffix: nat)
    requires MaximalEnds(expected, actual, prefix, suffix) && prefix + suffix == |expected|
    ensures Repeats(expected, actual)
       <==> CopiesNeighbour(expected, prefix, actual[prefix..|actual| - suffix])
  {
    if CopiesNeighbour(expected, prefix, actual[prefix..|actual| - suffix]) {
      CopyRepeats(expected, actual, prefix, suffix);
    }
    forall at: nat, n': nat | RepeatedAt(expected, actual, at, n')
      ensures CopiesNeighbour(expected, prefix, actual[prefix..|actual| - suffix])
    {
      RepetitionAtPrefix(expected, actual, at, n', prefix);
    }
  }

  /**
   * The code names the difference exactly: an insertion, an omission or a repetition when the texts
   * differ by one contiguous block, a substitution otherwise.
   */
  method TextDifferenceFinding(expected: Units, actual: Units) returns (code: FindingCode)
    requires expected != actual
    ensures code == TextDuplication <==> Repeats(expected, actual)
    ensures code == TextInsertion <==> Inserts(expected, actual) && !Repeats(expected, actual)
    ensures code == TextOmission <==> Inserts(actual, expected)
    ensures code == TextSubstitution <==> !Inserts(expected, actual) && !Inserts(actual, expected)
  {
    var prefix, suffix := CommonEnds(expected, actual);
    EndsMeetIff(expected, actual, prefix, suffix);
    EndsMeetIff(actual, expected, prefix, suffix);
    var expectedMiddle := expected[prefix..|expected| - suffix];
    var actualMiddle := actual[prefix..|actual| - suffix];
    if |expectedMiddle| == 0 {
      RepeatsIff(expected, actual, prefix, suffix);
      return if CopiesNeighbour(expected, prefix, actualMiddle) then TextDuplication else TextInsertion;
    }
    assert Repeats(expected, actual) ==> Inserts(expected, actual);
    if |actualMiddle| == 0 {
      return TextOmission;
    }
    return TextSubstitution;
  }

  // ---------------------------------------------------------------- mechanical repair

  const NBSP: Unit := 0xA0
  const SPACE: Unit := 0x20

  /** The echo differs from the source, and only by ordinary spaces in place of no-break spaces. */
  predicate Repairable(source: Units, echoed: Units) {
    && |echoed| == |source| && echoed != source
    && (forall i | 0 <= i < |source| :: echoed[i] == source[i] || (source[i] == NBSP && echoed[i] == SPACE))
  }

  method IsMechanical(source: Units, echoed: Units) returns (repairable: bool, replacementCount: nat)
    ensures repairable <==> Repairable(source, echoed)
  {
    replacementCount := 0;
    if echoed == source || |echoed| != |source| {
      return false, 0;
    }
    for i := 0 to |source|
      invariant replacementCount == 0 ==> echoed[..i] == source[..i]
      invariant replacementCount > 0 ==> echoed != source
      invariant forall k | 0 <= k < i :: echoed[k] == source[k] || (source[k] == NBSP && echoed[k] == SPACE)
    {
      if source[i] != echoed[i] {
        if source[i] != NBSP || echoed[i] != SPACE {
          return false, replacementCount;
        }
        replacementCount := replacementCount + 1;
      }
    }
    return replacementCount != 0, replacementCount;
  }

  /** Every fragment of passage `id` rewritten from consecutive slices of `source`. */
  function Overwrite<A>(output: seq<Wire<A>>, id: string, source: Units, cursor: nat): seq<Wire<A>>
    requires cursor + |Concat(Bucket(output, id))| <= |source|
  {
    if output == [] then []
    else if output[0].passageId == id then
      var end := cursor + |output[0].text|;
      [output[0].(text := source[cursor..end])] + Overwrite(output[1..], id, source, end)
    else [output[0]] + Overwrite(output[1..], id, source, cursor)
  }

  function RepairOne<A>(passage: Passage, output: seq<Wire<A>>): seq<Wire<A>> {
    var source := Encode(passage.text);
    if Repairable(source, Concat(Bucket(output, passage.id)))
    then Overwrite(output, passage.id, source, 0)
    else output
  }

  function RepairAll<A>(passages: seq<Passage>, output: seq<Wire<A>>): seq<Wire<A>>
    decreases |passages|
  {
    if passages == [] then output else RepairAll(passages[1..], RepairOne(passages[0], output))
  }

  function EndOf<A>(fragment: Wire<A>, id: string, cursor: nat): nat {
    if fragment.passageId == id then cursor + |fragment.text| else cursor
  }

  function Rewritten<A>(fragment: Wire<A>, id: string, source: Units, cursor: nat): Wire<A>
    requires EndOf(fragment, id, cursor) <= |source|
  {
    if fragment.passageId == id then fragment.(text := source[cursor..cursor + |fragment.text|]) else fragment
  }

  lemma OverwriteStep<A>(output: seq<Wire<A>>, k: nat, id: string, source: Units, cursor: nat, done: seq<Wire<A>>)
    requires k < |output| && cursor + |Concat(Bucket(output[k..], id))| == |source|
    ensures var end := EndOf(output[k], id, cursor);
            && end + |Concat(Bucket(output[k + 1..], id))| == |source|
            && done + Overwrite(output[k..], id, source, cursor)
               == done + [Rewritten(output[k], id, source, cursor)] + Overwrite(output[k + 1..], id, source, end)
  {
    assert output[k..][0] == output[k] && output[k..][1..] == output[k + 1..];
    var first := [Rewritten(output[k], id, source, cursor)];
    var rest := Overwrite(output[k + 1..], id, source, EndOf(output[k], id, cursor));
    assert Overwrite(output[k..], id, source, cursor) == first + rest;
    assert done + (first + rest) == done + first + rest;
  }

  lemma SlotStep<T>(done: seq<T>, output: seq<T>, slot: T)
    requires |done| < |output|
    ensures (done + output[|done|..])[|done|] == output[|done|]
    ensures (done + output[|done|..])[|done| := slot] == done + [slot] + output[|done| + 1..]
    ensures slot == output[|done|] ==> done + output[|done|..] == done + [slot] + output[|done| + 1..]
  {
  }

  method OverwriteSlots<A>(output: seq<Wire<A>>, id: string, source: Units) returns (segments: seq<Wire<A>>)
    requires |Concat(Bucket(output, id))| == |source|
    ensures segments == Overwrite(output, id, source, 0)
  {
    segments := output;
    var cursor: nat := 0;
    ghost var done: seq<Wire<A>> := [];
    assert output[0..] == output;
    for k := 0 to |output|
      invariant |done| == k && segments == done + output[k..]
      invariant cursor + |Concat(Bucket(output[k..], id))| == |source|
      invariant done + Overwrite(output[k..], id, source, cursor) == Overwrite(output, id, source, 0)
    {
      OverwriteStep(output, k, id, source, cursor, done);
      SlotStep(done, output, Rewritten(output[k], id, source, cursor));
      done := done + [Rewritten(output[k], id, source, cursor)];
      segments, cursor := OverwriteSlot(segments, k, id, source, cursor);
    }
    assert output[|output|..] == [] && done + [] == done;
  }

  method OverwriteSlot<A>(segments: seq<Wire<A>>, k: nat, id: string, source: Units, cursor: nat)
    returns (after: seq<Wire<A>>, end: nat)
    requires k < |segments| && EndOf(segments[k], id, cursor) <= |source|
    ensures after == segments[k := Rewritten(segments[k], id, source, cursor)] && end == EndOf(segments[k], id, cursor)
  {
    after, end := segments, cursor;
    if segments[k].passageId == id {
      end := cursor + |segments[k].text|;
      after := segments[k := segments[k].(text := source[cursor..end])];
    }
  }

  method RepairMechanicalSourceEcho<A>(output: seq<Wire<A>>, passages: seq<Passage>)
    returns (segments: seq<Wire<A>>, repairs: seq<string>)
    ensures segments == RepairAll(passages, output)
  {
    segments := output;
    repairs := [];
    assert passages[0..] == passages;
    for k := 0 to |passages|
      invariant RepairAll(passages[k..], segments) == RepairAll(passages, output)
    {
      assert passages[k..][0] == passages[k] && passages[k..][1..] == passages[k + 1..];
      var source := Encode(passages[k].text);
      var mechanical, _ := IsMechanical(source, Concat(Bucket(segments, passages[k].id)));
      if mechanical {
        segments := OverwriteSlots(segments, passages[k].id, source);
        repairs := repairs + [passages[k].id];
      }
    }
  }

  /** Same fragments with the same passage, length and annotation; only texts may differ. */
  ghost predicate SameShape<A>(a: seq<Wire<A>>, b: seq<Wire<A>>) {
    && |a| == |b|
    && (forall i | 0 <= i < |a| ::
          a[i].passageId == b[i].passageId && |a[i].text| == |b[i].text| && a[i].annotation == b[i].annotation)
  }

  lemma SameShapeCons<A>(a: Wire<A>, rest: seq<Wire<A>>, b: Wire<A>, others: seq<Wire<A>>)
    requires SameShape([a], [b]) && SameShape(rest, others)
    ensures SameShape([a] + rest, [b] + others)
  {
    assert [a][0] == a && [b][0] == b;
  }

  lemma {:induction false} OverwriteKeepsShape<A>(output: seq<Wire<A>>, id: string, source: Units, cursor: nat)
    requires cursor + |Concat(Bucket(output, id))| <= |source|
    ensures SameShape(output, Overwrite(output, id, source, cursor))
    decreases |output|
  {
    if output != [] {
      var end := if output[0].passageId == id then cursor + |output[0].text| else cursor;
      OverwriteKeepsShape(output[1..], id, source, end);
      var out, tail := Overwrite(output, id, source, cursor), Overwrite(output[1..], id, source, end);
      SameShapeCons(output[0], output[1..], out[0], tail);
      assert output == [output[0]] + output[1..] && out == [out[0]] + tail;
    }
  }

  lemma {:induction false} OverwriteKeepsOthers<A>(output: seq<Wire<A>>, id: string, source: Units, cursor: nat, other: string)
    requires cursor + |Concat(Bucket(output, id))| <= |source| && other != id
    ensures Bucket(Overwrite(output, id, source, cursor), other) == Bucket(output, other)
    decreases |output|
  {
    if output != [] {
      var end := if output[0].passageId == id then cursor + |output[0].text| else cursor;
      OverwriteKeepsOthers(output[1..], id, source, end, other);
      assert Overwrite(output, id, source, cursor)[1..] == Overwrite(output[1..], id, source, end);
    }
  }

  lemma {:induction false} OverwriteSpells<A>(output: seq<Wire<A>>, id: string, source: Units, cursor: nat)
    requires cursor + |Concat(Bucket(output, id))| <= |source|
    ensures Concat(Bucket(Overwrite(output, id, source, cursor), id))
         == source[cursor..cursor + |Concat(Bucket(output, id))|]
    decreases |output|
  {
    if output != [] {
      var end := if output[0].passageId == id then cursor + |output[0].text| else cursor;
      OverwriteSpells(output[1..], id, source, end);
      assert Overwrite(output, id, source, cursor)[1..] == Overwrite(output[1..], id, source, end);
    }
  }

  lemma OverwriteShape<A>(output: seq<Wire<A>>, id: string, source: Units, cursor: nat)
    requires cursor + |Concat(Bucket(output, id))| <= |source|
    ensures var out := Overwrite(output, id, source, cursor);
            && SameShape(output, out)
            && Concat(Bucket(out, id)) == source[cursor..cursor + |Concat(Bucket(output, id))|]
            && (forall other | other != id :: Bucket(out, other) == Bucket(output, other))
  {
    OverwriteKeepsShape(output, id, source, cursor);
    OverwriteSpells(output, id, source, cursor);
    forall other | other != id ensures Bucket(Overwrite(output, id, source, cursor), other) == Bucket(output, other) {
      OverwriteKeepsOthers(output, id, source, cursor, other);
    }
  }

  /**
   * Repair changes no passage name, length or annotation. A passage whose only defects are
   * normalised no-break spaces then spells its source exactly; every other one is left alone.
   */
  lemma {:induction false} RepairIsExactOrAbsent<A>(passages: seq<Passage>, output: seq<Wire<A>>)
    requires ProperPassages(passages)
    ensures SameShape(output, RepairAll(passages, output))
    ensures forall k | 0 <= k < |passages| ::
              var was := Bucket(output, passages[k].id);
              var now := Bucket(RepairAll(passages, output), passages[k].id);
              if Repairable(Encode(passages[k].text), Concat(was))
              then Concat(now) == Encode(passages[k].text)
              else now == was
    ensures forall id | (forall k | 0 <= k < |passages| :: passages[k].id != id)
              :: Bucket(RepairAll(passages, output), id) == Bucket(output, id)
    decreases |passages|
  {
    if passages != [] {
      var first := passages[0];
      var source := Encode(first.text);
      var mid := RepairOne(first, output);
      if Repairable(source, Concat(Bucket(output, first.id))) {
        OverwriteShape(output, first.id, source, 0);
        assert source[0..|source|] == source;
      }
      RepairIsExactOrAbsent(passages[1..], mid);
      assert forall k | 0 < k < |passages| :: passages[k] == passages[1..][k - 1];
      assert forall k | 0 <= k < |passages| - 1 :: passages[1..][k].id != first.id;
    }
  }

  // ---------------------------------------------------------------- fidelity analysis

  function IndexOf(passages: seq<Passage>, id: string): (r: Option<nat>)
    ensures r.Some? ==> r.value < |passages| && passages[r.value].id == id
    ensures r.None? ==> forall i | 0 <= i < |passages| :: passages[i].id != id
  {
    if passages == [] then None
    else
      var n := |passages| - 1;
      if passages[n].id == id then Some(n) else IndexOf(passages[..n], id)
  }

  /** Every fragment names a passage of the request, none earlier than `last` or its predecessor. */
  predicate OrderedFrom<A>(passages: seq<Passage>, output: seq<Wire<A>>, last: int)
    decreases |output|
  {
    output == [] || (
      var at := IndexOf(passages, output[0].passageId);
      at.Some? && last <= at.value && OrderedFrom(passages, output[1..], at.value))
  }

  /** No fragment boundary, from `cursor` on, lands inside a surrogate pair. */
  predicate CutsClean<A>(fragments: seq<Wire<A>>, text: Units, cursor: nat)
    decreases |fragments|
  {
    fragments == [] || (
      var end := cursor + |fragments[0].text|;
      && !SplitsSurrogatePair(text, cursor) && !SplitsSurrogatePair(text, end)
      && CutsClean(fragments[1..], text, end))
  }

  predicate AcceptedPassage<A>(passage: Passage, fragments: seq<Wire<A>>) {
    var text := Encode(passage.text);
    fragments != [] && Concat(fragments) == text && CutsClean(fragments, text, 0)
  }

  /** Fragments in passage order that spell every passage exactly at code-point boundaries. */
  predicate Faithful<A>(passages: seq<Passage>, output: seq<Wire<A>>) {
    OrderedFrom(passages, output, -1) && AllAccepted(passages, output)
  }

  predicate AllAccepted<A>(passages: seq<Passage>, output: seq<Wire<A>>)
    decreases |passages|
  {
    passages == [] || (
      && AcceptedPassage(passages[0], Bucket(output, passages[0].id))
      && AllAccepted(passages[1..], output))
  }

  function RangesOf<A>(fragments: seq<Wire<A>>, text: Units, cursor: nat): seq<Derived<A>>
    requires cursor + |Concat(fragments)| <= |text|
    decreases |fragments|
  {
    if fragments == [] then []
    else
      var end := cursor + |fragments[0].text|;
      [Derived(fragments[0], cursor, end, text[cursor..end])] + RangesOf(fragments[1..], text, end)
  }

  /** The ranges of a passage whose fragments spell it; none otherwise. */
  function PassageRanges<A>(passage: Passage, fragments: seq<Wire<A>>): seq<Derived<A>> {
    var text := Encode(passage.text);
    if Concat(fragments) == text then RangesOf(fragments, text, 0) else []
  }

  function AllRanges<A>(passages: seq<Passage>, output: seq<Wire<A>>): seq<Derived<A>>
    decreases |passages|
  {
    if passages == [] then []
    else PassageRanges(passages[0], Bucket(output, passages[0].id)) + AllRanges(passages[1..], output)
  }

  lemma RangesStep<A>(fragments: seq<Wire<A>>, i: nat, text: Units, cursor: nat, derived: seq<Derived<A>>)
    requires i < |fragments| && cursor + |Concat(fragments[i..])| == |text|
    ensures var end := cursor + |fragments[i].text|;
            && end + |Concat(fragments[i + 1..])| == |text|
            && derived + RangesOf(fragments[i..], text, cursor)
               == derived + [Derived(fragments[i], cursor, end, text[cursor..end])] + RangesOf(fragments[i + 1..], text, end)
            && (CutsClean(fragments[i..], text, cursor) <==>
                  !SplitsSurrogatePair(text, cursor) && !SplitsSurrogatePair(text, end) && CutsClean(fragments[i + 1..], text, end))
  {
    assert fragments[i..][0] == fragments[i] && fragments[i..][1..] == fragments[i + 1..];
    var end := cursor + |fragments[i].text|;
    var first := [Derived(fragments[i], cursor, end, text[cursor..end])];
    var rest := RangesOf(fragments[i + 1..], text, end);
    assert derived + (first + rest) == derived + first + rest;
  }

  method DeriveRanges<A>(passageId: string, fragments: seq<Wire<A>>, text: Units)
    returns (findings: seq<Finding>, derived: seq<Derived<A>>)
    requires |Concat(fragments)| == |text|
    ensures findings == [] <==> CutsClean(fragments, text, 0)
    ensures derived == RangesOf(fragments, text, 0)
  {
    findings, derived := [], [];
    var cursor := 0;
    assert fragments[0..] == fragments;
    for i := 0 to |fragments|
      invariant cursor + |Concat(fragments[i..])| == |text|
      invariant findings != [] ==> !CutsClean(fragments, text, 0)
      invariant findings == [] ==> CutsClean(fragments, text, 0) == CutsClean(fragments[i..], text, cursor)
      invariant derived + RangesOf(fragments[i..], text, cursor) == RangesOf(fragments, text, 0)
    {
      RangesStep(fragments, i, text, cursor, derived);
      var end := cursor + |fragments[i].text|;
      if SplitsSurrogatePair(text, cursor) || SplitsSurrogatePair(text, end) {
        findings := findings + [Finding(SplitGrapheme, passageId)];
      }
      derived := derived + [Derived(fragments[i], cursor, end, text[cursor..end])];
      cursor := end;
    }
    assert derived + [] == derived;
  }

  method AnalyzePassage<A>(passage: Passage, fragments: seq<Wire<A>>)
    returns (findings: seq<Finding>, derived: seq<Derived<A>>)
    requires passage.text != ""
    ensures findings == [] <==> AcceptedPassage(passage, fragments)
    ensures derived == PassageRanges(passage, fragments)
  {
    if fragments == [] {
      return [Finding(TextOmission, passage.id)], [];
    }
    var text := Encode(passage.text);
    var combined := Concat(fragments);
    if combined != text {
      var code := TextDifferenceFinding(text, combined);
      return [Finding(code, passage.id)], [];
    }
    findings, derived := DeriveRanges(passage.id, fragments, text);
  }

  lemma TextsStep<A>(passages: seq<Passage>, output: seq<Wire<A>>, k: nat, made: seq<Derived<A>>)
    requires k < |passages|
    ensures var fragments := Bucket(output, passages[k].id);
            && AllAccepted(passages[k..], output)
               == (AcceptedPassage(passages[k], fragments) && AllAccepted(passages[k + 1..], output))
            && made + AllRanges(passages[k..], output)
               == made + PassageRanges(passages[k], fragments) + AllRanges(passages[k + 1..], output)
  {
    assert passages[k..][0] == passages[k] && passages[k..][1..] == passages[k + 1..];
  }

  method AnalyzeTexts<A>(passages: seq<Passage>, output: seq<Wire<A>>, fragmentsByPassage: map<string, seq<Wire<A>>>)
    returns (findings: seq<Finding>, segments: seq<Derived<A>>)
    requires ProperPassages(passages) && BucketsOf(passages, output, fragmentsByPassage)
    ensures findings == [] <==> AllAccepted(passages, output)
    ensures segments == AllRanges(passages, output)
  {
    findings, segments := [], [];
    assert passages[0..] == passages;
    for k := 0 to |passages|
      invariant findings != [] ==> !AllAccepted(passages, output)
      invariant findings == [] ==> AllAccepted(passages, output) == AllAccepted(passages[k..], output)
      invariant segments + AllRanges(passages[k..], output) == AllRanges(passages, output)
    {
      TextsStep(passages, output, k, segments);
      var more, derived := AnalyzePassage(passages[k], fragmentsByPassage[passages[k].id]);
      findings := findings + more;
      segments := segments + derived;
    }
    assert segments + [] == segments;
  }

  /** No finding exactly when the output is faithful; the ranges then tile every passage. */
  method AnalyzeFidelity<A>(passages: seq<Passage>, output: seq<Wire<A>>)
    returns (findings: seq<Finding>, segments: seq<Derived<A>>)
    requires ProperPassages(passages)
    ensures findings == [] <==> Faithful(passages, output)
    ensures segments == AllRanges(passages, output)
    ensures UnknownReported(passages, output, findings)
  {
    var orderFindings, fragmentsByPassage := AnalyzeOrder(passages, output);
    var textFindings, derived := AnalyzeTexts(passages, output, fragmentsByPassage);
    return orderFindings + textFindings, derived;
  }

  ghost predicate BucketsOf<A>(passages: seq<Passage>, output: seq<Wire<A>>, buckets: map<string, seq<Wire<A>>>) {
    forall k | 0 <= k < |passages| ::
      passages[k].id in buckets && buckets[passages[k].id] == Bucket(output, passages[k].id)
  }

  predicate UnknownReported<A>(passages: seq<Passage>, output: seq<Wire<A>>, findings: seq<Finding>) {
    forall i | 0 <= i < |output| && IndexOf(passages, output[i].passageId).None?
      :: Finding(UnknownPassage, output[i].passageId) in findings
  }

  lemma BucketsStep<A>(passages: seq<Passage>, output: seq<Wire<A>>, item: Wire<A>, buckets: map<string, seq<Wire<A>>>)
    requires BucketsOf(passages, output, buckets)
    ensures IndexOf(passages, item.passageId).None? ==> BucketsOf(passages, output + [item], buckets)
    ensures IndexOf(passages, item.passageId).Some? ==>
      item.passageId in buckets
      && BucketsOf(passages, output + [item], buckets[item.passageId := buckets[item.passageId] + [item]])
  {
    forall k | 0 <= k < |passages|
      ensures Bucket(output + [item], passages[k].id)
           == Bucket(output, passages[k].id) + (if item.passageId == passages[k].id then [item] else [])
    {
      BucketAppend(output, [item], passages[k].id);
    }
  }

  lemma OrderedStep<A>(passages: seq<Passage>, output: seq<Wire<A>>, i: nat, last: int)
    requires i < |output|
    ensures var at := IndexOf(passages, output[i].passageId);
            OrderedFrom(passages, output[i..], last)
            == (at.Some? && last <= at.value && OrderedFrom(passages, output[i + 1..], at.value))
  {
    assert output[i..][0] == output[i] && output[i..][1..] == output[i + 1..];
  }

  /** First pass: unknown and reordered passages, and the fragments of each known passage. */
  method AnalyzeOrder<A>(passages: seq<Passage>, output: seq<Wire<A>>)
    returns (findings: seq<Finding>, fragmentsByPassage: map<string, seq<Wire<A>>>)
    ensures findings == [] <==> OrderedFrom(passages, output, -1)
    ensures BucketsOf(passages, output, fragmentsByPassage)
    ensures UnknownReported(passages, output, findings)
  {
    findings := [];
    fragmentsByPassage := map k | 0 <= k < |passages| :: passages[k].id := [];
    var lastPassageIndex: int := -1;
    assert output[0..] == output && output[..0] == [];
    for i := 0 to |output|
      invariant findings != [] ==> !OrderedFrom(passages, output, -1)
      invariant findings == [] ==> OrderedFrom(passages, output, -1) == OrderedFrom(passages, output[i..], lastPassageIndex)
      invariant BucketsOf(passages, output[..i], fragmentsByPassage)
      invariant UnknownReported(passages, output[..i], findings)
    {
      var item := output[i];
      assert output[..i + 1] == output[..i] + [item];
      BucketsStep(passages, output[..i], item, fragmentsByPassage);
      OrderedStep(passages, output, i, lastPassageIndex);
      var at := IndexOf(passages, item.passageId);
      if at.None? {
        findings := findings + [Finding(UnknownPassage, item.passageId)];
      } else {
        if at.value < lastPassageIndex {
          findings := findings + [Finding(PassageReorder, item.passageId)];
        }
        lastPassageIndex := if lastPassageIndex < at.value then at.value else lastPassageIndex;
        fragmentsByPassage := fragmentsByPassage[item.passageId := fragmentsByPassage[item.passageId] + [item]];
      }
    }
    assert output[..|output|] == output;
  }

  // ---------------------------------------------------------------- what acceptance guarantees

  function Directed<A>(derived: seq<Derived<A>>): seq<Fragment<A>> {
    seq(|derived|, i requires 0 <= i < |derived| =>
      Fragment(derived[i].item.passageId, Decode(derived[i].text), derived[i].item.annotation))
  }

  /** Consecutive ranges from `from` to `to`. */
  ghost predicate Tiles<A>(derived: seq<Derived<A>>, from: nat, to: nat)
    decreases |derived|
  {
    if derived == [] then from == to
    else derived[0].start == from && derived[0].end <= to && Tiles(derived[1..], derived[0].end, to)
  }

  lemma {:induction false} RangesTile<A>(fragments: seq<Wire<A>>, text: Units, cursor: nat)
    requires cursor + |Concat(fragments)| == |text|
    ensures |RangesOf(fragments, text, cursor)| == |fragments|
    ensures Tiles(RangesOf(fragments, text, cursor), cursor, |text|)
    ensures forall i | 0 <= i < |fragments| :: RangesOf(fragments, text, cursor)[i].item == fragments[i]
    decreases |fragments|
  {
    if fragments != [] {
      var end := cursor + |fragments[0].text|;
      RangesTile(fragments[1..], text, end);
      var tail := RangesOf(fragments[1..], text, end);
      assert RangesOf(fragments, text, cursor)[1..] == tail;
    }
  }

  lemma FirstRange<A>(fragments: seq<Wire<A>>, text: Units, cursor: nat, rest: string)
    returns (k: nat)
    requires fragments != []
    requires cursor <= |text| && Concat(fragments) == text[cursor..] == Encode(rest)
    requires CutsClean(fragments, text, cursor)
    ensures var end := cursor + |fragments[0].text|;
            && k <= |rest| && end <= |text|
            && Decode(text[cursor..end]) == rest[..k]
            && Concat(fragments[1..]) == text[end..] == Encode(rest[k..])
  {
    var n := |fragments[0].text|;
    var units := Encode(rest);
    HeadAndRest(fragments[0].text, Concat(fragments[1..]), units);
    SuffixParts(text, cursor, n);
    k := CutIsCodePointBoundary(rest, n);
    DecodeEncode(rest[..k]);
  }

  lemma HeadAndRest(head: Units, tail: Units, whole: Units)
    requires head + tail == whole
    ensures whole[..|head|] == head && whole[|head|..] == tail
  {
  }

  lemma SuffixParts(text: Units, cursor: nat, n: nat)
    requires cursor + n <= |text|
    ensures text[cursor..][..n] == text[cursor..cursor + n] && text[cursor..][n..] == text[cursor + n..]
    ensures SplitsSurrogatePair(text[cursor..], n) ==> SplitsSurrogatePair(text, cursor + n)
  {
  }

  lemma {:induction false} RangesDecode<A>(fragments: seq<Wire<A>>, text: Units, cursor: nat, rest: string)
    requires cursor <= |text| && Concat(fragments) == text[cursor..] == Encode(rest)
    requires CutsClean(fragments, text, cursor)
    ensures Text.Join(Texts(Directed(RangesOf(fragments, text, cursor)))) == rest
    decreases |fragments|
  {
    if fragments == [] {
      DecodeEncode(rest);
    } else {
      var k := FirstRange(fragments, text, cursor, rest);
      var end := cursor + |fragments[0].text|;
      RangesDecode(fragments[1..], text, end, rest[k..]);
      var first := Derived(fragments[0], cursor, end, text[cursor..end]);
      var later := RangesOf(fragments[1..], text, end);
      assert RangesOf(fragments, text, cursor) == [first] + later;
      JoinDirected(first, later);
      assert rest == rest[..k] + rest[k..];
    }
  }

  lemma JoinDirected<A>(first: Derived<A>, tail: seq<Derived<A>>)
    ensures Text.Join(Texts(Directed([first] + tail))) == Decode(first.text) + Text.Join(Texts(Directed(tail)))
  {
    var all := Texts(Directed([first] + tail));
    assert all[0] == Decode(first.text);
    assert all[1..] == Texts(Directed(tail));
  }

  lemma {:induction false} BucketNames<A>(output: seq<Wire<A>>, id: string)
    ensures forall i | 0 <= i < |Bucket(output, id)| :: Bucket(output, id)[i].passageId == id
  {
    if output != [] {
      BucketNames(output[1..], id);
    }
  }

  lemma PassageIsCovered<A>(passage: Passage, fragments: seq<Wire<A>>)
    requires AcceptedPassage(passage, fragments)
    requires forall i | 0 <= i < |fragments| :: fragments[i].passageId == passage.id
    ensures GroupCovers(Directed(PassageRanges(passage, fragments)), passage)
    ensures Tiles(PassageRanges(passage, fragments), 0, |Encode(passage.text)|)
  {
    var text := Encode(passage.text);
    assert text[0..] == text;
    RangesTile(fragments, text, 0);
    RangesDecode(fragments, text, 0, passage.text);
  }

  /** Accepted ranges tile each passage, and their texts cover the passages exactly and in order. */
  lemma {:induction false} AcceptedCovers<A>(passages: seq<Passage>, output: seq<Wire<A>>)
    returns (groups: seq<seq<Fragment<A>>>)
    requires AllAccepted(passages, output)
    ensures ExactCoverage(passages, groups, Directed(AllRanges(passages, output)))
    ensures forall k | 0 <= k < |passages| ::
              Tiles(PassageRanges(passages[k], Bucket(output, passages[k].id)), 0, |Encode(passages[k].text)|)
    decreases |passages|
  {
    if passages == [] {
      groups := [];
    } else {
      var fragments := Bucket(output, passages[0].id);
      BucketNames(output, passages[0].id);
      PassageIsCovered(passages[0], fragments);
      var first := Directed(PassageRanges(passages[0], fragments));
      var rest := Directed(AllRanges(passages[1..], output));
      var tail := AcceptedCovers(passages[1..], output);
      SingleCoverage(passages[0], first);
      CoverageAppend([passages[0]], [first], first, passages[1..], tail, rest);
      groups := [first] + tail;
      assert [passages[0]] + passages[1..] == passages;
      assert Directed(AllRanges(passages, output)) == first + rest;
      assert forall k | 0 < k < |passages| :: passages[k] == passages[1..][k - 1];
    }
  }

  lemma SingleCoverage<A>(passage: Passage, group: seq<Fragment<A>>)
    requires GroupCovers(group, passage)
    ensures ExactCoverage([passage], [group], group)
  {
    assert Flatten([group]) == group + Flatten([]);
  }

  lemma {:induction false} InOrderSkip<A>(passages: seq<Passage>, i: nat, head: Wire<A>, tail: seq<Wire<A>>)
    requires i <= |passages|
    requires forall k | i <= k < |passages| :: passages[k].id != head.passageId
    ensures InPassageOrder(passages, i, [head] + tail) == InPassageOrder(passages, i, tail)
    decreases |passages| - i
  {
    assert ([head] + tail)[1..] == tail;
    if i < |passages| {
      InOrderSkip(passages, i + 1, head, tail);
    }
  }

  /** The buckets of the passages from `i` on, one after the other. */
  function InPassageOrder<A>(passages: seq<Passage>, i: nat, output: seq<Wire<A>>): seq<Wire<A>>
    requires i <= |passages|
    decreases |passages| - i
  {
    if i == |passages| then [] else Bucket(output, passages[i].id) + InPassageOrder(passages, i + 1, output)
  }

  lemma {:induction false} NothingEarlier<A>(passages: seq<Passage>, output: seq<Wire<A>>, last: int, i: nat)
    requires ProperPassages(passages) && OrderedFrom(passages, output, last) && i < last && i < |passages|
    ensures Bucket(output, passages[i].id) == []
    decreases |output|
  {
    if output != [] {
      var at := IndexOf(passages, output[0].passageId).value;
      NothingEarlier(passages, output[1..], at, i);
    }
  }

  lemma ConsBucket<A>(head: Wire<A>, tail: seq<Wire<A>>, id: string)
    ensures Bucket([head] + tail, id) == (if head.passageId == id then [head] else []) + Bucket(tail, id)
  {
    assert ([head] + tail)[1..] == tail;
  }

  lemma ConsBucketOther<A>(head: Wire<A>, tail: seq<Wire<A>>, id: string)
    requires head.passageId != id
    ensures Bucket([head] + tail, id) == Bucket(tail, id)
  {
    ConsBucket(head, tail, id);
  }

  lemma HeadIsHere<A>(passages: seq<Passage>, at: nat, head: Wire<A>, tail: seq<Wire<A>>)
    requires ProperPassages(passages) && at < |passages| && passages[at].id == head.passageId
    ensures InPassageOrder(passages, at, [head] + tail) == [head] + InPassageOrder(passages, at, tail)
  {
    ConsBucket(head, tail, passages[at].id);
    InOrderSkip(passages, at + 1, head, tail);
    var mine, later := Bucket(tail, passages[at].id), InPassageOrder(passages, at + 1, tail);
    assert ([head] + mine) + later == [head] + (mine + later);
  }

  lemma SkipsEmpty<A>(passages: seq<Passage>, i: nat, output: seq<Wire<A>>)
    requires i < |passages| && Bucket(output, passages[i].id) == []
    ensures InPassageOrder(passages, i, output) == InPassageOrder(passages, i + 1, output)
  {
  }

  /** An earlier passage has no fragment, with the head or without it. */
  lemma SkipsOther<A>(passages: seq<Passage>, i: nat, head: Wire<A>, tail: seq<Wire<A>>, at: nat)
    requires ProperPassages(passages) && i < at < |passages| && passages[at].id == head.passageId
    requires OrderedFrom(passages, tail, at)
    ensures InPassageOrder(passages, i, [head] + tail) == InPassageOrder(passages, i + 1, [head] + tail)
    ensures InPassageOrder(passages, i, tail) == InPassageOrder(passages, i + 1, tail)
  {
    NothingEarlier(passages, tail, at, i);
    assert head.passageId != passages[i].id;
    ConsBucketOther(head, tail, passages[i].id);
    SkipsEmpty(passages, i, [head] + tail);
    SkipsEmpty(passages, i, tail);
  }

  lemma {:induction false} HeadComesFirst<A>(passages: seq<Passage>, i: nat, head: Wire<A>, tail: seq<Wire<A>>, at: nat)
    requires ProperPassages(passages) && i <= at < |passages| && passages[at].id == head.passageId
    requires OrderedFrom(passages, tail, at)
    ensures InPassageOrder(passages, i, [head] + tail) == [head] + InPassageOrder(passages, i, tail)
    decreases |passages| - i
  {
    if i == at {
      HeadIsHere(passages, at, head, tail);
    } else {
      SkipsOther(passages, i, head, tail, at);
      HeadComesFirst(passages, i + 1, head, tail, at);
    }
  }

  /** An accepted order is already passage order: stitching neither drops nor moves a fragment. */
  lemma {:induction false} OrderedIsPassageOrder<A>(passages: seq<Passage>, output: seq<Wire<A>>, last: int)
    requires ProperPassages(passages) && OrderedFrom(passages, output, last)
    ensures InPassageOrder(passages, 0, output) == output
    decreases |output|
  {
    if output == [] {
      EmptyInOrder<A>(passages, 0);
    } else {
      var at := IndexOf(passages, output[0].passageId).value;
      OrderedIsPassageOrder(passages, output[1..], at);
      assert output == [output[0]] + output[1..];
      HeadComesFirst(passages, 0, output[0], output[1..], at);
    }
  }

  lemma {:induction false} EmptyInOrder<A>(passages: seq<Passage>, i: nat)
    requires i <= |passages|
    ensures InPassageOrder<A>(passages, i, []) == []
    decreases |passages| - i
  {
    if i < |passages| {
      EmptyInOrder<A>(passages, i + 1);
    }
  }

  /** A faithful output has nothing to repair. */
  lemma {:induction false} FaithfulNeedsNoRepair<A>(passages: seq<Passage>, output: seq<Wire<A>>)
    requires AllAccepted(passages, output)
    ensures RepairAll(passages, output) == output
    decreases |passages|
  {
    if passages != [] {
      assert RepairOne(passages[0], output) == output;
      FaithfulNeedsNoRepair(passages[1..], output);
    }
  }
}
