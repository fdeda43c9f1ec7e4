/** Functions on sequences and text that several formats share. */
module Sequences {

  function Min(x: nat, y: nat): nat {
    if x < y then x else y
  }

  /** All parts put together. */
  function Flatten<T>(parts: seq<seq<T>>): seq<T> {
    if parts == [] then [] else parts[0] + Flatten(parts[1..])
  }

  lemma {:induction false} FlattenSnoc<T>(parts: seq<seq<T>>, part: seq<T>)
    ensures Flatten(parts + [part]) == Flatten(parts) + part
  {
    if parts == [] {
      assert parts + [part] == [part] && [part][1..] == [];
    } else {
      FlattenSnoc(parts[1..], part);
      assert (parts + [part])[1..] == parts[1..] + [part];
    }
  }

  lemma Regroup<T>(a: seq<T>, b: seq<T>, c: seq<T>)
    ensures a + b + c == a + (b + c)
  {
  }

  lemma NothingBefore<T>(s: seq<T>)
    ensures [] + s == s
  {
  }

  // -------------------------------------------------------------------- text

  /** What strip() takes for white space, below 128. */
  predicate IsSpace(c: char) {
    9 <= c as int <= 13 || 28 <= c as int <= 32
  }

  function LStrip(s: string): string {
    if s != [] && IsSpace(s[0]) then LStrip(s[1..]) else s
  }

  // -------------------------------------------------- attributes, pair by pair

  function Append<T>(m: map<string, seq<T>>, k: string, v: T): map<string, seq<T>> {
    m[k := (if k in m then m[k] else []) + [v]]
  }

  function Gathered(pairs: seq<(string, string)>): map<string, seq<string>> {
    if pairs == [] then map[]
    else var last := pairs[|pairs| - 1]; Append(Gathered(pairs[..|pairs| - 1]), last.0, last.1)
  }
}
