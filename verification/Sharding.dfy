/** One map kept in parts: the hash of a key picks the part that answers for it. */
module Sharding {
  import opened Bytes
  import Entry

  /** One map that answers for each key as the key's own part does. */
  ghost predicate Agrees(whole: map<Bytes, Bytes>, parts: seq<map<Bytes, Bytes>>) {
    |parts| > 0 && forall k :: AgreesOn(whole, parts[Entry.Hash(k) % |parts|], k)
  }

  ghost predicate AgreesOn(whole: map<Bytes, Bytes>, part: map<Bytes, Bytes>, k: Bytes) {
    (k in whole <==> k in part) && (k in whole ==> whole[k] == part[k])
  }

  /** Binding a key in its own part is binding it in the whole. */
  lemma AgreesAfter(whole: map<Bytes, Bytes>, parts: seq<map<Bytes, Bytes>>, key: Bytes, value: Bytes)
    requires Agrees(whole, parts)
    ensures var i := Entry.Hash(key) % |parts|; Agrees(whole[key := value], parts[i := parts[i][key := value]])
  {
    var i := Entry.Hash(key) % |parts|;
    var after := parts[i := parts[i][key := value]];
    forall k ensures AgreesOn(whole[key := value], after[Entry.Hash(k) % |after|], k) {
      assert AgreesOn(whole, parts[Entry.Hash(k) % |parts|], k);
    }
  }
}
