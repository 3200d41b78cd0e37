/** Failure-carrying values shared by every module of the model. */
module Wrappers {

  datatype Option<+T> = None | Some(value: T) {
    /** `unwrap_or(default)` */
    function GetOr(default: T): T {
      match this
      case Some(v) => v
      case None => default
    }
  }

  /** Rust's `Result<T, E>`; the model always instantiates `E` with `Error`. */
  datatype Result<+T, +E> = Ok(value: T) | Err(error: E)

  /** A call that either returns a value or panics.  The service manager runs
      on a single asynchronous task, so a panic ends the whole command: every
      caller that meets `Panicked` stops and passes it on. */
  datatype Run<+T> = Returned(value: T) | Panicked

  /** The `anyhow::Error` values that the core can produce. */
  datatype Error =
    | ReadError                               // the manifest file could not be read
    | ParseError                              // the manifest is not valid TOML for the schema
    | UnbalancedBrace(line: nat, offset: nat) // the placeholder scan ended inside `{`
    | SpawnError                              // the shell process could not be created
    | WaitError                               // the exit status could not be collected
}

/** Counting and filtering in sequences, used by the scanner, the executor
    and the batch commands. */
module Seqs {

  function Count<T(==)>(s: seq<T>, x: T): (n: nat)
    ensures n <= |s|
    ensures n == 0 <==> x !in s
  {
    if s == [] then 0 else (if s[0] == x then 1 else 0) + Count(s[1..], x)
  }

  lemma {:induction false} CountConcat<T>(a: seq<T>, b: seq<T>, x: T)
    ensures Count(a + b, x) == Count(a, x) + Count(b, x)
  {
    if a == [] {
      assert a + b == b;
    } else {
      assert (a + b)[1..] == a[1..] + b;
      CountConcat(a[1..], b, x);
    }
  }

  /** The elements of `v` that satisfy `p`, in their order (`retain`,
      `filter`). */
  function Keep<T>(v: seq<T>, p: T -> bool): (r: seq<T>)
    ensures |r| <= |v|
    decreases |v|
  {
    if v == [] then [] else (if p(v[0]) then [v[0]] else []) + Keep(v[1..], p)
  }

  /** Everything kept comes from `v` and satisfies `p`, and every element of
      `v` that satisfies `p` is kept. */
  lemma {:induction false} KeepMembers<T>(v: seq<T>, p: T -> bool)
    ensures forall k :: 0 <= k < |Keep(v, p)| ==> Keep(v, p)[k] in v && p(Keep(v, p)[k])
    ensures forall j :: 0 <= j < |v| && p(v[j]) ==> v[j] in Keep(v, p)
    decreases |v|
  {
    if v != [] {
      KeepMembers(v[1..], p);
      var rest := Keep(v[1..], p);
      var h := if p(v[0]) then [v[0]] else [];
      assert Keep(v, p) == h + rest;
      forall k | 0 <= k < |Keep(v, p)| ensures Keep(v, p)[k] in v && p(Keep(v, p)[k]) {
        if k >= |h| {
          assert Keep(v, p)[k] == rest[k - |h|];
          assert rest[k - |h|] in v[1..];
        }
      }
      forall j | 0 <= j < |v| && p(v[j]) ensures v[j] in Keep(v, p) {
        if j > 0 {
          assert v[1..][j - 1] == v[j];
        }
      }
    }
  }

  /** One step of `Keep`, for callers that walk `v` from the front. */
  lemma KeepUnfold<T>(v: seq<T>, p: T -> bool)
    requires v != []
    ensures Keep(v, p) == (if p(v[0]) then [v[0]] else []) + Keep(v[1..], p)
  {
  }

  /** The positions in `v` of the elements `Keep` retains. */
  function KeptIndices<T>(v: seq<T>, p: T -> bool): seq<nat>
    decreases |v|
  {
    if v == [] then []
    else
      var rest := KeptIndices(v[1..], p);
      (if p(v[0]) then [0] else []) + seq(|rest|, k requires 0 <= k < |rest| => rest[k] + 1)
  }

  /** Every kept element is `v` read at its recorded position. */
  lemma {:induction false} KeptIndicesPositions<T>(v: seq<T>, p: T -> bool)
    ensures |KeptIndices(v, p)| == |Keep(v, p)|
    ensures forall k :: 0 <= k < |KeptIndices(v, p)| ==>
      KeptIndices(v, p)[k] < |v| && Keep(v, p)[k] == v[KeptIndices(v, p)[k]]
    decreases |v|
  {
    if v != [] {
      KeptIndicesPositions(v[1..], p);
      var rest := KeptIndices(v[1..], p);
      var h: seq<nat> := if p(v[0]) then [0] else [];
      var idx := KeptIndices(v, p);
      var keep := Keep(v, p);
      var tail := Keep(v[1..], p);
      assert |idx| == |h| + |rest|;
      forall k | 0 <= k < |idx| ensures idx[k] < |v| && keep[k] == v[idx[k]] {
        if k >= |h| {
          assert idx[k] == rest[k - |h|] + 1;
          assert keep[k] == tail[k - |h|];
          assert v[1..][rest[k - |h|]] == v[idx[k]];
        }
      }
    }
  }

  /** The recorded positions increase strictly. */
  lemma {:induction false} KeptIndicesIncreasing<T>(v: seq<T>, p: T -> bool)
    ensures forall k, l :: 0 <= k < l < |KeptIndices(v, p)| ==> KeptIndices(v, p)[k] < KeptIndices(v, p)[l]
    decreases |v|
  {
    if v != [] {
      KeptIndicesIncreasing(v[1..], p);
      var rest := KeptIndices(v[1..], p);
      var h: seq<nat> := if p(v[0]) then [0] else [];
      var idx := KeptIndices(v, p);
      forall k, l | 0 <= k < l < |idx| ensures idx[k] < idx[l] {
        if k >= |h| {
          assert idx[k] == rest[k - |h|] + 1 && idx[l] == rest[l - |h|] + 1;
        } else {
          assert idx[l] == rest[l - |h|] + 1;
        }
      }
    }
  }

  /** Every position whose element satisfies `p` is recorded. */
  lemma {:induction false} KeptIndicesComplete<T>(v: seq<T>, p: T -> bool)
    ensures forall j :: 0 <= j < |v| && p(v[j]) ==> j in KeptIndices(v, p)
    decreases |v|
  {
    if v != [] {
      KeptIndicesComplete(v[1..], p);
      var rest := KeptIndices(v[1..], p);
      var h: seq<nat> := if p(v[0]) then [0] else [];
      var idx := KeptIndices(v, p);
      forall j | 0 <= j < |v| && p(v[j]) ensures j in idx {
        if j == 0 {
          assert idx[0] == 0;
        } else {
          assert v[1..][j - 1] == v[j];
          var k :| 0 <= k < |rest| && rest[k] == j - 1;
          assert idx[|h| + k] == j;
        }
      }
    }
  }

  /** `Keep` preserves order and drops exactly what fails `p`: its result is
      `v` read at an increasing list of positions that holds every position
      whose element satisfies `p`, and no other. */
  lemma KeepInOrder<T>(v: seq<T>, p: T -> bool)
    ensures var idx := KeptIndices(v, p);
      |idx| == |Keep(v, p)| &&
      (forall k :: 0 <= k < |idx| ==> idx[k] < |v| && Keep(v, p)[k] == v[idx[k]] && p(v[idx[k]])) &&
      (forall k, l :: 0 <= k < l < |idx| ==> idx[k] < idx[l]) &&
      (forall j :: 0 <= j < |v| && p(v[j]) ==> j in idx)
  {
    KeptIndicesPositions(v, p);
    KeptIndicesIncreasing(v, p);
    KeptIndicesComplete(v, p);
  }
}
