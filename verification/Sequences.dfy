/** Joining a list of sequences. */
module Sequences {

  function Flatten<T>(parts: seq<seq<T>>): seq<T> {
    if parts == [] then [] else Flatten(parts[..|parts| - 1]) + parts[|parts| - 1]
  }

  lemma FlattenSnoc<T>(parts: seq<seq<T>>, part: seq<T>)
    ensures Flatten<T>([]) == [] && Flatten(parts + [part]) == Flatten(parts) + part
  {
    assert (parts + [part])[..|parts|] == parts;
  }

  lemma {:induction false} FlattenCons<T>(parts: seq<seq<T>>)
    requires parts != []
    ensures Flatten(parts) == parts[0] + Flatten(parts[1..])
  {
    var n := |parts| - 1;
    if n == 0 {
      assert parts[..0] == [] && parts[1..] == [];
    } else {
      FlattenCons(parts[..n]);
      assert parts[..n][0] == parts[0] && parts[..n][1..] == parts[1..][..n - 1];
      assert parts[1..][n - 1] == parts[n];
      assert parts[0] + Flatten(parts[1..n]) + parts[n] == parts[0] + (Flatten(parts[1..n]) + parts[n]);
    }
  }
}
