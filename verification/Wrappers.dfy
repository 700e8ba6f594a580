/** Failure-carrying datatypes shared by every module of the model. */
module Wrappers {

  datatype Option<+T> = None | Some(value: T)

  datatype Result<+T, +E> = Ok(value: T) | Err(error: E)
}

/** Sizes of sets. */
module Sets {
  lemma {:induction false} SubsetSize<T>(a: set<T>, b: set<T>)
    requires a <= b
    ensures |a| <= |b|
  {
    if a != {} {
      var x :| x in a;
      SubsetSize(a - {x}, b - {x});
    }
  }
}

/** Limits of JavaScript numbers. */
module Numbers {
  const MAX_SAFE_INTEGER: nat := 9007199254740991
}

/** Finite paths of a machine whose steps may be disabled. */
module Paths {
  import opened Wrappers

  /** The events, one after the other, lead from one state to the other. */
  ghost predicate Leads<S(!new), E>(step: (S, E) -> Option<S>, s: S, events: seq<E>, s': S)
    decreases |events|
  {
    if events == [] then s == s' else step(s, events[0]).Some? && Leads(step, step(s, events[0]).value, events[1..], s')
  }
}

/** White space and trimming, for strings of any kind of character. */
module WhiteSpace {
  /** What `\s` matches and `trim` strips, by character code. */
  predicate IsWhite(n: int) {
    || 9 <= n <= 13 || n == 0x20 || n == 0xA0 || n == 0x1680 || 0x2000 <= n <= 0x200A
    || n == 0x2028 || n == 0x2029 || n == 0x202F || n == 0x205F || n == 0x3000 || n == 0xFEFF
  }

  function TrimStart<T>(white: T -> bool, s: seq<T>): (r: seq<T>)
    ensures |r| <= |s| && (s != [] && white(s[0]) ==> |r| < |s|)
    ensures r != [] ==> !white(r[0])
  {
    if s != [] && white(s[0]) then TrimStart(white, s[1..]) else s
  }

  function TrimEnd<T>(white: T -> bool, s: seq<T>): (r: seq<T>)
    ensures r <= s && (r != [] ==> !white(r[|r| - 1]))
  {
    if s != [] && white(s[|s| - 1]) then TrimEnd(white, s[..|s| - 1]) else s
  }

  function Trim<T>(white: T -> bool, s: seq<T>): (r: seq<T>)
    ensures r != [] ==> !white(r[0]) && !white(r[|r| - 1])
  {
    TrimEnd(white, TrimStart(white, s))
  }

  lemma TrimFixes<T>(white: T -> bool, s: seq<T>)
    requires s == [] || (!white(s[0]) && !white(s[|s| - 1]))
    ensures Trim(white, s) == s
  {
  }

  lemma TrimIdempotent<T>(white: T -> bool, s: seq<T>)
    ensures Trim(white, Trim(white, s)) == Trim(white, s)
  {
    TrimFixes(white, Trim(white, s));
  }
}

/** A parsed JSON value over a string type `S` and a number type `N`.
    An object keeps its keys in the order in which they were written. A JavaScript object does so for
    keys that do not look like array indices.
    `Unsupported` is no JSON: it stands for whatever a printer rejects, such as undefined, functions,
    symbols, big integers, non-finite numbers and objects that are not plain. */
module JsonValue {
  import opened Wrappers

  datatype Json<S, N> =
    | Null
    | Bool(b: bool)
    | Num(n: N)
    | Str(s: S)
    | Arr(items: seq<Json<S, N>>)
    | Obj(entries: seq<(S, Json<S, N>)>)
    | Unsupported

  /** Property access: the value of the last entry with the key, as `JSON.parse` keeps it. */
  function Field<S(==), N>(entries: seq<(S, Json<S, N>)>, key: S): Option<Json<S, N>>
  {
    if entries == [] then None
    else if entries[|entries| - 1].0 == key then Some(entries[|entries| - 1].1)
    else Field(entries[..|entries| - 1], key)
  }
}
