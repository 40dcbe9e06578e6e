/** The values that flow through the ODD pipeline: the trees the YAML loader
    returns for a file and the JSON decoder returns for a log message. */
module OddValues {

  datatype Option<+T> = None | Some(value: T)

  /** Mapping keys. The records are YAML/JSON objects whose keys are strings. */
  type Key = string

  /** A serialised record (the text `json.dumps` produces). */
  type Blob = string

  /** A standard Python scalar: None, a bool, an int, a float (its value is
      irrelevant here, so it is kept as a real) or a str. */
  datatype Native = Null | Bool(b: bool) | Int(i: int) | Float(x: real) | Str(s: string)

  /** A loaded record. `Map` is a dict (entries in insertion order), `List` a
      list, `Wrapped` a numpy scalar whose `item()` returns `item`, and `Plain`
      any other value, which has no `item` attribute. A dict's entries have
      distinct keys; the model does not enforce it, and `Lookup` taking the
      first match is not a claim about how a parser treats a duplicated key. */
  datatype Val =
    | Map(entries: seq<(Key, Val)>)
    | List(items: seq<Val>)
    | Wrapped(item: Native)
    | Plain(native: Native)

  /** Dict lookup: the value of the first entry whose key is `k`, if any. */
  function Lookup(es: seq<(Key, Val)>, k: Key): Option<Val> {
    if es == [] then None
    else if es[0].0 == k then Some(es[0].1)
    else Lookup(es[1..], k)
  }

  /** `d.get(k)`: the value at `k`, or Python's None when `k` is absent. */
  function Get(es: seq<(Key, Val)>, k: Key): Val {
    match Lookup(es, k)
    case Some(v) => v
    case None => Plain(Null)
  }

  /** Lookup finds a key exactly when some entry has it, and then returns the
      value of the first such entry. */
  lemma {:induction false} LookupSpec(es: seq<(Key, Val)>, k: Key)
    ensures Lookup(es, k).None? <==> forall i :: 0 <= i < |es| ==> es[i].0 != k
    ensures Lookup(es, k).Some? ==>
              exists i :: 0 <= i < |es| && es[i] == (k, Lookup(es, k).value) &&
                          forall j :: 0 <= j < i ==> es[j].0 != k
  {
    if es != [] && es[0].0 != k {
      LookupSpec(es[1..], k);
      assert forall i :: 1 <= i < |es| ==> es[i] == es[1..][i - 1];
      if Lookup(es, k).Some? {
        var i :| 0 <= i < |es| - 1 && es[1..][i] == (k, Lookup(es, k).value) &&
                 forall j :: 0 <= j < i ==> es[1..][j].0 != k;
        assert es[i + 1] == (k, Lookup(es, k).value);
        assert forall j :: 0 <= j < i + 1 ==> es[j].0 != k by {
          forall j | 0 <= j < i + 1 ensures es[j].0 != k {
            if j > 0 { assert es[j] == es[1..][j - 1]; }
          }
        }
      }
    }
  }

  /** `get` of an absent key gives None; of a present key, the value stored
      under its first occurrence. */
  lemma GetSpec(es: seq<(Key, Val)>, k: Key)
    ensures (forall i :: 0 <= i < |es| ==> es[i].0 != k) ==> Get(es, k) == Plain(Null)
    ensures forall i :: 0 <= i < |es| && es[i].0 == k && (forall j :: 0 <= j < i ==> es[j].0 != k) ==>
              Get(es, k) == es[i].1
  {
    LookupSpec(es, k);
  }
}
