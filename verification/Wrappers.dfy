/** Failure-carrying results, for the exceptions the pipeline raises. */
module Wrappers {

  datatype Option<+T> = None | Some(value: T)

  datatype Result<+T, +E> = Ok(value: T) | Err(error: E) {
    predicate IsFailure() {
      Err?
    }

    function PropagateFailure<U>(): Result<U, E>
      requires Err?
    {
      Err(error)
    }

    function Extract(): T
      requires Ok?
    {
      value
    }
  }
}

/** Strings as sequences of code points, their concatenation, and JavaScript white space. */
module Text {

  function Join(parts: seq<string>): string {
    if parts == [] then "" else parts[0] + Join(parts[1..])
  }

  lemma {:induction false} JoinAppend(a: seq<string>, b: seq<string>)
    ensures Join(a + b) == Join(a) + Join(b)
  {
    if a == [] {
      assert a + b == b;
    } else {
      JoinAppend(a[1..], b);
      assert (a + b)[1..] == a[1..] + b && (a + b)[0] == a[0];
      var middle, last := Join(a[1..]), Join(b);
      assert a[0] + (middle + last) == (a[0] + middle) + last;
    }
  }

  lemma JoinSnoc(a: seq<string>, s: string)
    ensures Join(a + [s]) == Join(a) + s
  {
    JoinAppend(a, [s]);
    assert Join([s]) == s;
  }

  lemma JoinOne(parts: seq<string>, i: nat)
    requires i < |parts|
    ensures Join(parts[i..i + 1]) == parts[i]
  {
    assert parts[i..i + 1] == [] + [parts[i]];
    JoinSnoc([], parts[i]);
  }

  lemma JoinSplit(parts: seq<string>, lo: nat, mid: nat, hi: nat)
    requires lo <= mid <= hi <= |parts|
    ensures Join(parts[lo..hi]) == Join(parts[lo..mid]) + Join(parts[mid..hi])
  {
    JoinAppend(parts[lo..mid], parts[mid..hi]);
    assert parts[lo..hi] == parts[lo..mid] + parts[mid..hi];
  }

  /** The code points matched by `\s` and removed by `trim()`. */
  predicate IsSpace(c: char) {
    || '\t' <= c <= '\r' || c == ' ' || c == '\U{A0}' || c == '\U{1680}'
    || '\U{2000}' <= c <= '\U{200A}' || c == '\U{2028}' || c == '\U{2029}'
    || c == '\U{202F}' || c == '\U{205F}' || c == '\U{3000}' || c == '\U{FEFF}'
  }

  /** `s.trim().length === 0`. */
  predicate Blank(s: string) {
    forall i | 0 <= i < |s| :: IsSpace(s[i])
  }

  /** `/\s/u.test(s)`. A base space carrying a combining mark is spaced but not blank. */
  predicate Spaced(s: string) {
    exists i | 0 <= i < |s| :: IsSpace(s[i])
  }

  lemma BlankAppend(a: string, b: string)
    ensures Blank(a + b) <==> Blank(a) && Blank(b)
  {
    if Blank(a + b) {
      assert forall i | 0 <= i < |a| :: a[i] == (a + b)[i];
      assert forall i | 0 <= i < |b| :: b[i] == (a + b)[|a| + i];
    }
  }

  lemma {:induction false} BlankJoin(parts: seq<string>)
    ensures Blank(Join(parts)) <==> forall i | 0 <= i < |parts| :: Blank(parts[i])
  {
    if parts != [] {
      BlankAppend(parts[0], Join(parts[1..]));
      BlankJoin(parts[1..]);
      assert forall i | 0 < i < |parts| :: parts[i] == parts[1..][i - 1];
    }
  }
}
