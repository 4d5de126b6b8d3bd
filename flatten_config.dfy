/** `flattenConfig` of the lint configuration: the shared configuration is a list whose
    entries are configuration objects or arrays of them; the function builds a new
    list in which every array entry is replaced by its elements, in place, and every
    other entry is kept. Only one level is flattened. */
module EslintConfig {

  /** An entry of the list: an array (whose elements may be arrays again) or anything else. */
  datatype Item<T> = Atom(value: T) | Arr(elems: seq<Item<T>>)

  /** What one entry puts into the result: its elements if it is an array, itself otherwise. */
  function Contribution<T>(item: Item<T>): seq<Item<T>> {
    if item.Arr? then item.elems else [item]
  }

  /** The contributions of the entries, concatenated in input order. */
  function Flat<T>(config: seq<Item<T>>): seq<Item<T>> {
    if config == [] then [] else Contribution(config[0]) + Flat(config[1..])
  }

  /** How many elements an entry contributes. */
  function Weight<T>(item: Item<T>): nat {
    if item.Arr? then |item.elems| else 1
  }

  /** How many elements the entries contribute together. */
  function TotalWeight<T>(config: seq<Item<T>>): nat {
    if config == [] then 0 else Weight(config[0]) + TotalWeight(config[1..])
  }

  /** `flattenConfig`: a fresh result list, extended entry by entry. The input is a value
      and is left as it is. */
  method FlattenConfig<T>(config: seq<Item<T>>) returns (result: seq<Item<T>>)
    ensures result == Flat(config)
  {
    result := [];
    for i := 0 to |config|
      invariant result == Flat(config[..i])
    {
      var item := config[i];
      if item.Arr? {
        result := result + item.elems;
      } else {
        result := result + [item];
      }
      assert config[..i + 1] == config[..i] + [item];
      FlatAppend(config[..i], [item]);
      assert Flat([item]) == Contribution(item) + Flat([item][1..]);
    }
    assert config[..|config|] == config;
  }

  /** Flattening distributes over concatenation of inputs. */
  lemma {:induction false} FlatAppend<T>(a: seq<Item<T>>, b: seq<Item<T>>)
    ensures Flat(a + b) == Flat(a) + Flat(b)
    decreases |a|
  {
    if a == [] {
      assert a + b == b;
    } else {
      assert (a + b)[0] == a[0] && (a + b)[1..] == a[1..] + b;
      FlatAppend(a[1..], b);
    }
  }

  /** The result has one element per non-array entry plus the elements of every array entry. */
  lemma {:induction false} FlatLength<T>(config: seq<Item<T>>)
    ensures |Flat(config)| == TotalWeight(config)
    decreases |config|
  {
    if config != [] {
      FlatLength(config[1..]);
    }
  }

  /** Where the contribution of entry `i` starts in the result. */
  function Offset<T>(config: seq<Item<T>>, i: nat): nat
    requires i <= |config|
  {
    TotalWeight(config[..i])
  }

  /** Content and order: element `j` of the contribution of entry `i` sits at position
      `Offset(config, i) + j` of the result. An array entry's elements therefore appear
      in order and without gaps, a non-array entry appears as itself, and entries keep
      their relative order. */
  lemma {:induction false} FlatPositions<T>(config: seq<Item<T>>, i: nat, j: nat)
    requires i < |config| && j < Weight(config[i])
    ensures Offset(config, i) + j < |Flat(config)|
    ensures Flat(config)[Offset(config, i) + j] == Contribution(config[i])[j]
    decreases |config|
  {
    FlatLength(config);
    if i == 0 {
      assert config[..0] == [];
    } else {
      var rest := config[1..];
      assert config[..i] == [config[0]] + rest[..i - 1];
      assert config[i] == rest[i - 1];
      FlatPositions(rest, i - 1, j);
      assert TotalWeight(config[..i]) == Weight(config[0]) + TotalWeight(rest[..i - 1]) by {
        assert config[..i][0] == config[0] && config[..i][1..] == rest[..i - 1];
      }
    }
  }

  /** Only one level is flattened: an array inside an array entry arrives in the result
      as a single element, unchanged. */
  lemma OnlyOneLevel<T>(config: seq<Item<T>>, i: nat, j: nat)
    requires i < |config| && config[i].Arr?
    requires j < |config[i].elems| && config[i].elems[j].Arr?
    ensures Offset(config, i) + j < |Flat(config)|
    ensures Flat(config)[Offset(config, i) + j] == config[i].elems[j]
    ensures Flat(config)[Offset(config, i) + j].Arr?
  {
    FlatPositions(config, i, j);
  }

  /** A list without array entries comes back element for element. */
  lemma {:induction false} FlatWithoutArrays<T>(config: seq<Item<T>>)
    requires forall k :: 0 <= k < |config| ==> config[k].Atom?
    ensures Flat(config) == config
    decreases |config|
  {
    if config != [] {
      FlatWithoutArrays(config[1..]);
      assert config == [config[0]] + config[1..];
    }
  }

  /** A list holding one array entry flattens to that array's elements. */
  lemma FlatSingleArray<T>(elems: seq<Item<T>>)
    ensures Flat([Arr(elems)]) == elems
  {
    assert [Arr(elems)][1..] == [];
  }
}
