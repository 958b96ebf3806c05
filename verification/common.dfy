/** Small shared vocabulary: optional values (the source's `null`) and the
    outcome of awaiting a callback that may throw. */
module Common {

  /** A value or `null`. */
  datatype Option<+T> = None | Some(value: T)

  /** What a `catch` block receives: an `Error` instance (with its message)
      or some other thrown value. */
  datatype Thrown = ErrorValue(message: string) | OtherValue

  /** The settled state of an awaited promise. */
  datatype Settled = Resolved | Rejected(reason: Thrown)

  /** The message a `catch` block stores: `error.message` for an `Error`
      instance, the given fallback text otherwise. */
  function CaughtMessage(t: Thrown, fallback: string): (m: string)
    ensures t.ErrorValue? ==> m == t.message
    ensures t.OtherValue? ==> m == fallback
  {
    match t
    case ErrorValue(msg) => msg
    case OtherValue => fallback
  }

  /** `Array.prototype.findIndex`: the first index whose element satisfies
      `p`, or `None` where the source gets -1. */
  function FindIndex<T>(s: seq<T>, p: T -> bool): (r: Option<nat>)
    ensures r.Some? ==> r.value < |s| && p(s[r.value])
    ensures r.Some? ==> forall j :: 0 <= j < r.value ==> !p(s[j])
    ensures r.None? ==> forall j :: 0 <= j < |s| ==> !p(s[j])
  {
    if |s| == 0 then None
    else if p(s[0]) then Some(0)
    else
      match FindIndex(s[1..], p)
      case None => None
      case Some(i) => Some(i + 1)
  }

  /** The sum of `f` over the elements of `s`. */
  function SumOf<T>(s: seq<T>, f: T -> int): int
  {
    if |s| == 0 then 0 else f(s[0]) + SumOf(s[1..], f)
  }

  /** Sums split over concatenation. */
  lemma {:induction false} SumOfConcat<T>(a: seq<T>, b: seq<T>, f: T -> int)
    ensures SumOf(a + b, f) == SumOf(a, f) + SumOf(b, f)
  {
    if |a| == 0 {
      assert a + b == b;
    } else {
      assert (a + b)[1..] == a[1..] + b;
      SumOfConcat(a[1..], b, f);
    }
  }

  /** Replacing the element at `i` changes the sum by the difference of `f`. */
  lemma {:induction false} SumOfReplace<T>(s: seq<T>, i: nat, x: T, f: T -> int)
    requires i < |s|
    ensures SumOf(s[i := x], f) == SumOf(s, f) - f(s[i]) + f(x)
  {
    var pre, post := s[..i], s[i+1..];
    assert s == (pre + [s[i]]) + post;
    assert s[i := x] == (pre + [x]) + post;
    SumOfConcat(pre + [s[i]], post, f);
    SumOfConcat(pre, [s[i]], f);
    SumOfConcat(pre + [x], post, f);
    SumOfConcat(pre, [x], f);
    assert SumOf([x], f) == f(x) by { assert [x][1..] == []; }
    assert SumOf([s[i]], f) == f(s[i]) by { assert [s[i]][1..] == []; }
  }

  /** Removing the element at `i` lowers the sum by `f` of that element. */
  lemma {:induction false} SumOfRemove<T>(s: seq<T>, i: nat, f: T -> int)
    requires i < |s|
    ensures SumOf(s[..i] + s[i+1..], f) == SumOf(s, f) - f(s[i])
  {
    var pre, post := s[..i], s[i+1..];
    assert s == (pre + [s[i]]) + post;
    SumOfConcat(pre + [s[i]], post, f);
    SumOfConcat(pre, [s[i]], f);
    SumOfConcat(pre, post, f);
    assert SumOf([s[i]], f) == f(s[i]) by { assert [s[i]][1..] == []; }
  }
}
