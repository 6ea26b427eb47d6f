/** Shared by the models. */
module Common {
  datatype Option<+T> = None | Some(value: T)

  function Min(a: nat, b: nat): nat { if a <= b then a else b }

  function Max(a: nat, b: nat): nat { if a <= b then b else a }

  function Last<T>(s: seq<T>): T
    requires s != []
  {
    s[|s| - 1]
  }

  function Front<T>(s: seq<T>): seq<T>
    requires s != []
  {
    s[..|s| - 1]
  }

  /** What containers sort by only ever meets `<` and `==`, and every countable total order embeds in the reals. */
  type Ordered = real

  /** `std::lower_bound`: the first position whose key is not below `key`. */
  method LowerBound(keys: seq<Ordered>, key: Ordered) returns (e: nat)
    requires forall i, j :: 0 <= i < j < |keys| ==> keys[i] < keys[j]
    ensures e <= |keys|
    ensures forall i :: 0 <= i < e ==> keys[i] < key
    ensures forall i :: e <= i < |keys| ==> key <= keys[i]
  {
    e := 0;
    var count: nat := |keys|;
    while count > 0
      invariant e + count <= |keys|
      invariant forall i :: 0 <= i < e ==> keys[i] < key
      invariant forall i :: e + count <= i < |keys| ==> key <= keys[i]
    {
      var step := count / 2;
      if keys[e + step] < key {
        e, count := e + step + 1, count - step - 1;
      } else {
        count := step;
      }
    }
  }
}
