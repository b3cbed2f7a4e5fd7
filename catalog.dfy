/**
 * The product catalog of the selection form (`optionsMap`): a constant table
 * from product name to the weights and flavors that product comes in.
 * A JavaScript object literal whose keys are not integer-like keeps its keys
 * in insertion order, so the table is an ordered sequence of pairs.
 */
module Catalog {
  import opened Wrappers

  /** What one product offers: the weights for step 2, the flavors for step 3. */
  datatype Entry = Entry(weights: seq<string>, flavors: seq<string>)

  type Table = seq<(string, Entry)>

  const Products: Table := [
    ("Protein", Entry(["250g", "500g", "1kg", "2kg", "5kg"],
                      ["Chocolate", "Vanilla", "Strawberry"])),
    ("Creatine", Entry(["100g", "250g", "300g", "400g", "500g", "600g", "800g"],
                       ["Chocolate", "Fruit Punch", "Watermelon"])),
    ("Peanut Butter", Entry(["250g", "350", "500g", "700", "1kg", "2kg"],
                            ["Classic", "Honey", "jaggery", "Chocolate", "Natural/Unsweetened"]))
  ]

  /** `Object.keys`: the product names, in table order. */
  function Keys(t: Table): (ks: seq<string>)
    ensures |ks| == |t|
    ensures forall i :: 0 <= i < |t| ==> ks[i] == t[i].0
  {
    if t == [] then [] else [t[0].0] + Keys(t[1..])
  }

  /** No product name appears twice (an object literal cannot repeat a key). */
  predicate UniqueKeys(t: Table) {
    forall i, j :: 0 <= i < j < |t| ==> t[i].0 != t[j].0
  }

  /**
   * The entry the catalog stores under `key`, or `None` when `key` is no product
   * name. This is what `optionsMap[key]?.weights` and `?.flavors` see: a name
   * inherited from `Object.prototype` (such as "toString") gives an object
   * without `weights` or `flavors`, so those reads are `undefined` as well.
   */
  function Lookup(t: Table, key: string): (r: Option<Entry>)
    ensures r.Some? <==> key in Keys(t)
    ensures r.Some? ==> exists i :: 0 <= i < |t| && t[i] == (key, r.value)
  {
    if t == [] then None
    else if t[0].0 == key then Some(t[0].1)
    else
      var r := Lookup(t[1..], key);
      assert r.Some? ==> exists i :: 0 <= i < |t[1..]| && t[1..][i] == (key, r.value);
      assert r.Some? ==> exists i :: 0 <= i < |t| && t[i] == (key, r.value) by {
        if r.Some? {
          var i :| 0 <= i < |t[1..]| && t[1..][i] == (key, r.value);
          assert t[i + 1] == (key, r.value);
        }
      }
      r
  }

  /** With unique keys, looking up the name at position `i` finds the entry at position `i`. */
  lemma LookupAt(t: Table, i: nat)
    requires UniqueKeys(t)
    requires i < |t|
    ensures Lookup(t, t[i].0) == Some(t[i].1)
  {
  }

  /** A string the catalog offers anywhere: a product name, a weight or a flavor. */
  predicate InCatalog(w: string) {
    exists i :: 0 <= i < |Products| &&
      (w == Products[i].0 || w in Products[i].1.weights || w in Products[i].1.flavors)
  }

  /** Non-empty (so a selection of it is truthy) and free of the query separator `&`. */
  predicate Plain(w: string) {
    w != "" && '&' !in w
  }

  lemma ProductsUniqueKeys()
    ensures UniqueKeys(Products)
    ensures Keys(Products) == ["Protein", "Creatine", "Peanut Butter"]
  {
  }

  /** Every string of `ws` is plain. */
  predicate AllPlain(ws: seq<string>) {
    forall k :: 0 <= k < |ws| ==> Plain(ws[k])
  }

  /** Product `i`'s name, weights and flavors are all plain. */
  predicate ProductIsPlain(i: nat)
    requires i < |Products|
  {
    Plain(Products[i].0) && AllPlain(Products[i].1.weights) && AllPlain(Products[i].1.flavors)
  }

  lemma ProteinPlain() ensures ProductIsPlain(0) {}

  lemma CreatinePlain() ensures ProductIsPlain(1) {}

  lemma PeanutButterPlain() ensures ProductIsPlain(2) {}

  lemma ProductPlain(i: nat)
    requires i < |Products|
    ensures Plain(Products[i].0)
    ensures AllPlain(Products[i].1.weights) && AllPlain(Products[i].1.flavors)
  {
    if i == 0 { ProteinPlain(); }
    else if i == 1 { CreatinePlain(); }
    else { PeanutButterPlain(); }
  }

  /** Every string the catalog offers is plain. */
  lemma CatalogPlain(w: string)
    requires InCatalog(w)
    ensures Plain(w)
  {
    var i :| 0 <= i < |Products| &&
      (w == Products[i].0 || w in Products[i].1.weights || w in Products[i].1.flavors);
    ProductPlain(i);
  }
}
