/**
 * helpers.go: the first-delimited-substring search that every section
 * extraction uses, and the random class-name generator.
 */
module Helpers {
  import opened Text

  /** The failures of a compilation. */
  datatype Error =
    | NoMatchFound            // `errors.New("no match found")` of getStringBetween
    | ReadFailed(path: string) // the component file could not be read
    | DepthExceeded(path: string) // the import nesting exceeded the model's fuel (see README)

  datatype Result<T> = Ok(value: T) | Err(error: Error)

  /** `start` occurs at `i`, `end` right after `body`, and `body` is what lies between. */
  predicate Delimits(s: string, start: string, end: string, i: int, body: string) {
    && OccursAt(s, start, i)
    && OccursAt(s, end, i + |start| + |body|)
    && s[i + |start|..i + |start| + |body|] == body
  }

  /**
   * `body` is what `(?s)start(.*?)end` captures when the pair starts at `i`:
   * `start` occurs nowhere before `i`, and `end` nowhere inside `body`.
   */
  predicate FirstPairAt(s: string, start: string, end: string, i: int, body: string) {
    && Delimits(s, start, end, i, body)
    && (forall i' :: 0 <= i' < i ==> !OccursAt(s, start, i'))
    && (forall j :: i + |start| <= j < i + |start| + |body| ==> !OccursAt(s, end, j))
  }

  /** `body` is the text that `(?s)start(.*?)end` captures in `s`. */
  ghost predicate FirstPair(s: string, start: string, end: string, body: string) {
    exists i :: FirstPairAt(s, start, end, i, body)
  }

  /** Some occurrence of `start` is followed (without overlap) by an occurrence of `end`. */
  ghost predicate HasPair(s: string, start: string, end: string) {
    exists i, j :: OccursAt(s, start, i) && i + |start| <= j && OccursAt(s, end, j)
  }

  /**
   * getStringBetween: the text captured by `(?s)QuoteMeta(start)(.*?)QuoteMeta(end)`.
   * The delimiters are literal, and the captured text may span lines.
   */
  function GetStringBetween(s: string, start: string, end: string): Result<string> {
    match IndexFrom(s, start, 0)
    case None => Err(NoMatchFound)
    case Some(i) =>
      match IndexFrom(s, end, i + |start|)
      case None => Err(NoMatchFound)
      case Some(j) => Ok(s[i + |start|..j])
  }

  /**
   * getStringBetween fails, with "no match found", exactly when no `start` is
   * followed by an `end`; otherwise it captures the first pair, whose text
   * holds no `end`.
   */
  lemma GetStringBetweenSpec(s: string, start: string, end: string)
    ensures var r := GetStringBetween(s, start, end);
            && (r.Err? <==> !HasPair(s, start, end))
            && (r.Err? ==> r.error == NoMatchFound)
            && (r.Ok? ==> FirstPair(s, start, end, r.value))
            && (r.Ok? && end != "" ==> forall k :: !OccursAt(r.value, end, k))
  {
    match IndexFrom(s, start, 0)
    case None =>
    case Some(i) =>
      match IndexFrom(s, end, i + |start|)
      case None =>
        assert !HasPair(s, start, end) by {
          forall i', j | OccursAt(s, start, i') && i' + |start| <= j ensures !OccursAt(s, end, j) {
            assert i <= i';
          }
        }
      case Some(j) =>
        var body := s[i + |start|..j];
        assert FirstPairAt(s, start, end, i, body);
        assert end != "" ==> forall k :: !OccursAt(body, end, k) by {
          forall k | end != "" && OccursAt(body, end, k) ensures false {
            OccursInSlice(s, i + |start|, j, end, k);
          }
        }
  }

  /** The text between the first pair is unique: FirstPair determines it. */
  lemma FirstPairUnique(s: string, start: string, end: string, b1: string, b2: string)
    requires FirstPair(s, start, end, b1) && FirstPair(s, start, end, b2)
    ensures b1 == b2
  {
    var i1 :| FirstPairAt(s, start, end, i1, b1);
    var i2 :| FirstPairAt(s, start, end, i2, b2);
    FirstPairAtUnique(s, start, end, i1, b1, i2, b2);
  }

  lemma FirstPairAtUnique(s: string, start: string, end: string, i1: int, b1: string, i2: int, b2: string)
    requires FirstPairAt(s, start, end, i1, b1) && FirstPairAt(s, start, end, i2, b2)
    ensures i1 == i2 && b1 == b2
  {
    assert OccursAt(s, start, i1) && OccursAt(s, start, i2);
    assert i1 == i2;
    assert OccursAt(s, end, i1 + |start| + |b1|) && OccursAt(s, end, i2 + |start| + |b2|);
    assert |b1| == |b2|;
  }

  /**
   * The converse of GetStringBetween: wrapping `body` in the delimiters, after a
   * prefix in which `start` cannot begin, gives `body` back, provided `end` does
   * not begin inside `body`.
   */
  lemma {:induction false} GetStringBetweenWrapped(pre: string, start: string, body: string, end: string, post: string)
    requires start != "" && start[0] !in pre
    requires forall j :: 0 <= j < |body| ==> !OccursAt(body + end, end, j)
    ensures GetStringBetween(pre + start + body + end + post, start, end) == Ok(body)
  {
    var s := pre + start + body + end + post;
    var i := |pre|;
    assert s[i..i + |start|] == start;
    assert s[i + |start|..i + |start| + |body|] == body;
    assert s[i + |start| + |body|..i + |start| + |body| + |end|] == end;
    forall i' | 0 <= i' < i ensures !OccursAt(s, start, i') {
      assert s[i'] == pre[i'] != start[0];
    }
    forall j | i + |start| <= j < i + |start| + |body| ensures !OccursAt(s, end, j) {
      var k := j - i - |start|;
      var u := body + end;
      assert !OccursAt(u, end, k);
      assert s == (pre + start) + u + post;
      assert s[i + |start|..i + |start| + |u|] == u;
      assert s[j..j + |end|] == u[k..k + |end|];
    }
    assert FirstPairAt(s, start, end, i, body);
    var r := GetStringBetween(s, start, end);
    GetStringBetweenSpec(s, start, end);
    assert HasPair(s, start, end);
    FirstPairUnique(s, start, end, r.value, body);
  }

  /** The 62 characters generateCustomString draws from, in the source's order. */
  const Table: string := "1234567890abcdefghijklmnopqrstuvwxyzABCDEFGHIJKLMNOPQRSTUVWXYZ"

  /**
   * The process-wide source behind `rand.Intn`. Its draws are an input of the
   * model: `stream(k)` is the raw value of the k-th draw.
   */
  class Random {
    const stream: nat -> nat
    var drawn: nat

    constructor (stream: nat -> nat)
      ensures this.stream == stream && drawn == 0
    {
      this.stream := stream;
      drawn := 0;
    }

    /** `rand.Intn(n)`: a number below `n`, the next one the stream dictates. */
    method Intn(n: nat) returns (k: nat)
      requires n > 0
      modifies this
      ensures k < n && k == stream(old(drawn)) % n
      ensures drawn == old(drawn) + 1
    {
      k := stream(drawn) % n;
      drawn := drawn + 1;
    }
  }

  /** The string that `max` successive draws produce, starting at draw `from`. */
  function Drawn(stream: nat -> nat, from: nat, max: nat): string {
    if max == 0 then [] else Drawn(stream, from, max - 1) + [Table[stream(from + max - 1) % |Table|]]
  }

  /** `max` draws give `max` characters, the k-th picked from Table by draw `from + k`. */
  lemma {:induction false} DrawnShape(stream: nat -> nat, from: nat, max: nat)
    ensures var s := Drawn(stream, from, max);
            && |s| == max
            && forall k :: 0 <= k < max ==> s[k] == Table[stream(from + k) % |Table|] && s[k] in Table
  {
    if max > 0 {
      DrawnShape(stream, from, max - 1);
    }
  }

  /**
   * generateCustomString(max): `max` characters, each picked from Table by one
   * draw of `rnd`. (`rand.NewSource(...)` is called for nothing in the source.)
   */
  method GenerateCustomString(rnd: Random, max: nat) returns (s: string)
    modifies rnd
    ensures s == Drawn(rnd.stream, old(rnd.drawn), max)
    ensures rnd.drawn == old(rnd.drawn) + max
  {
    var customRunes := new char[max];
    var i := 0;
    while i < max
      invariant 0 <= i <= max
      invariant rnd.drawn == old(rnd.drawn) + i
      invariant customRunes[..i] == Drawn(rnd.stream, old(rnd.drawn), i)
    {
      var randomIndex := rnd.Intn(|Table|);
      customRunes[i] := Table[randomIndex];
      assert customRunes[..i + 1] == customRunes[..i] + [customRunes[i]];
      i := i + 1;
    }
    s := customRunes[..];
    assert s == customRunes[..max];
  }
}
