/**
 * The request side of `handleSearch`: the guard on the three choices, the
 * request path built from them, and the state the search moves through.
 * The path is plain string concatenation; nothing is percent-encoded.
 */
module Search {
  import opened Wrappers
  import opened Catalog
  import opened Steps

  /** One search hit as the endpoint returns it. */
  datatype Product = Product(name: string, price: string, image: string, url: string)

  /** The three choices a search is made with. */
  datatype Query = Query(product: string, weight: string, flavor: string)

  /** What `fetch` and `response.json()` came to: the parsed array, or a failure of either. */
  datatype FetchOutcome = Fetched(data: seq<Product>) | Failed

  const FailureMessage: string := "Failed to fetch search results. Please try again."

  const SearchPrefix: string := "/api/search?"

  /**
   * The guard of `handleSearch`: the choices of the first steps numbered 1, 2
   * and 3 when all three are truthy, otherwise `None` (the alert-and-return path).
   */
  function SearchSelection(steps: seq<Step>): (r: Option<Query>)
    ensures r.Some? <==> Truthy(Find(steps, 1)) && Truthy(Find(steps, 2)) && Truthy(Find(steps, 3))
  {
    var p, w, f := Find(steps, 1), Find(steps, 2), Find(steps, 3);
    if Truthy(p) && Truthy(w) && Truthy(f) then Some(Query(p.value, w.value, f.value)) else None
  }

  /** The request path: the three choices spliced into the template unchanged. */
  function SearchPath(q: Query): string {
    SearchPrefix + "product=" + q.product + "&weight=" + q.weight + "&flavor=" + q.flavor
  }

  /** Splits `s` at every `sep`; there is always at least one part. */
  function SplitOn(s: string, sep: char): (parts: seq<string>)
    ensures |parts| >= 1
  {
    if s == [] then [""]
    else if s[0] == sep then [""] + SplitOn(s[1..], sep)
    else
      var rest := SplitOn(s[1..], sep);
      [[s[0]] + rest[0]] + rest[1..]
  }

  /** A string without the separator is one part. */
  lemma {:induction false} SplitOnNoSep(a: string, sep: char)
    requires sep !in a
    ensures SplitOn(a, sep) == [a]
  {
    if a != [] {
      assert sep !in a[1..];
      SplitOnNoSep(a[1..], sep);
      assert [a[0]] + a[1..] == a;
    }
  }

  /** Splitting `a + sep + b`, where `a` has no separator, gives `a` then the parts of `b`. */
  lemma {:induction false} SplitOnJoin(a: string, b: string, sep: char)
    requires sep !in a
    ensures SplitOn(a + [sep] + b, sep) == [a] + SplitOn(b, sep)
  {
    if a == [] {
      assert a + [sep] + b == [sep] + b;
      assert ([sep] + b)[1..] == b;
    } else {
      assert sep !in a[1..];
      SplitOnJoin(a[1..], b, sep);
      assert (a + [sep] + b)[1..] == a[1..] + [sep] + b;
      assert [a[0]] + a[1..] == a;
    }
  }

  /** `field` with the leading `key` removed, or `None` when it does not start with `key`. */
  function StripKey(field: string, key: string): Option<string> {
    if key <= field then Some(field[|key|..]) else None
  }

  /**
   * Reads a request path back as a server would split its query on `&`:
   * exactly the fields `product=`, `weight=` and `flavor=`, in that order.
   */
  function ParseSearchPath(path: string): Option<Query> {
    if !(SearchPrefix <= path) then None
    else
      var fields := SplitOn(path[|SearchPrefix|..], '&');
      if |fields| != 3 then None
      else
        match (StripKey(fields[0], "product="), StripKey(fields[1], "weight="), StripKey(fields[2], "flavor="))
        case (Some(p), Some(w), Some(f)) => Some(Query(p, w, f))
        case _ => None
  }

  /** A query whose choices contain no `&` is read back unchanged from its request path. */
  lemma SearchPathRoundTrip(q: Query)
    requires '&' !in q.product && '&' !in q.weight && '&' !in q.flavor
    ensures ParseSearchPath(SearchPath(q)) == Some(q)
  {
    var a, b, c := "product=" + q.product, "weight=" + q.weight, "flavor=" + q.flavor;
    var rest := a + ['&'] + (b + ['&'] + c);
    assert SearchPath(q) == SearchPrefix + rest;
    assert SearchPrefix <= SearchPath(q);
    assert SearchPath(q)[|SearchPrefix|..] == rest;
    assert '&' !in a && '&' !in b && '&' !in c;
    SplitOnNoSep(c, '&');
    SplitOnJoin(b, c, '&');
    SplitOnJoin(a, b + ['&'] + c, '&');
    assert SplitOn(rest, '&') == [a, b, c];
    assert StripKey(a, "product=") == Some(q.product);
    assert StripKey(b, "weight=") == Some(q.weight);
    assert StripKey(c, "flavor=") == Some(q.flavor);
  }

  /** On such queries the request path tells queries apart. */
  lemma SearchPathInjective(q1: Query, q2: Query)
    requires '&' !in q1.product && '&' !in q1.weight && '&' !in q1.flavor
    requires '&' !in q2.product && '&' !in q2.weight && '&' !in q2.flavor
    requires SearchPath(q1) == SearchPath(q2)
    ensures q1 == q2
  {
    SearchPathRoundTrip(q1);
    SearchPathRoundTrip(q2);
  }

  /** Nothing is escaped: two different queries can produce the same request path. */
  lemma SearchPathNotEscaped()
    ensures Query("p&weight=w", "x", "f") != Query("p", "w&weight=x", "f")
    ensures SearchPath(Query("p&weight=w", "x", "f")) == SearchPath(Query("p", "w&weight=x", "f"))
  {
  }

  /** A catalog choice with a space ("Fruit Punch") goes into the path with the space as it is. */
  lemma SearchPathExample()
    ensures SearchPath(Query("Creatine", "250g", "Fruit Punch"))
      == "/api/search?product=Creatine&weight=250g&flavor=Fruit Punch"
  {
    var path := SearchPath(Query("Creatine", "250g", "Fruit Punch"));
    assert path == "/api/search?" + "product=" + "Creatine" + "&weight=" + "250g" + "&flavor=" + "Fruit Punch";
    assert "/api/search?" + "product=" + "Creatine" == "/api/search?product=Creatine";
    assert "/api/search?product=Creatine" + "&weight=" + "250g" == "/api/search?product=Creatine&weight=250g";
    assert "/api/search?product=Creatine&weight=250g" + "&flavor=" + "Fruit Punch"
      == "/api/search?product=Creatine&weight=250g&flavor=Fruit Punch";
  }
}
