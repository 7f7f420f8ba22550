/**
 * The browser-side helpers the dashboards use on rows fetched from the API:
 * sorting and filtering lists of records by a property, and the request
 * headers that carry an API key.
 */
module ClientUtils {
  import opened Wrappers
  import opened Js
  import opened Sequences
  import Auth

  /**
   * A record as the browser holds it, property name to value. Only string
   * values are modelled; a property the record lacks reads as `undefined`.
   */
  type Item = map<string, string>

  /** `item[property]`: `None` stands for `undefined`. */
  function Lookup(item: Item, property: string): Option<string>
  {
    if property in item then Some(item[property]) else None
  }

  /** `direction === 'asc'`, with `'asc'` the default when no direction is passed. */
  predicate Ascending(direction: Option<string>)
  {
    direction.None? || direction.value == "asc"
  }

  /**
   * The comparator handed to `Array.prototype.sort`: `<` and `>` on the two
   * values, scaled by the direction. Both comparisons are false when either
   * value is `undefined`, which makes the result 0.
   */
  function Compare(a: Item, b: Item, property: string, ascending: bool): (c: int)
    ensures c in {-1, 0, 1}
    ensures (Lookup(a, property).None? || Lookup(b, property).None?) ==> c == 0
    ensures property in a && property in b ==>
      (c < 0 <==> (if ascending then Less(a[property], b[property]) else Less(b[property], a[property])))
  {
    var multiplier := if ascending then 1 else -1;
    match (Lookup(a, property), Lookup(b, property))
    case (Some(x), Some(y)) =>
      if Less(x, y) then LessAsymmetric(x, y); -1 * multiplier
      else if Less(y, x) then 1 * multiplier
      else 0
    case _ => 0
  }

  /** `a` may stay before `b`: the comparator does not ask to swap them. */
  function InOrder(property: string, ascending: bool): (Item, Item) -> bool
  {
    (a: Item, b: Item) => Compare(a, b, property, ascending) <= 0
  }

  /**
   * `sortArrayByProperty`: a sorted copy of `array`. The sort is stable, as
   * `Array.prototype.sort` is required to be; the input is a value and is
   * never changed.
   */
  function SortArrayByProperty(items: seq<Item>, property: string, direction: Option<string>): seq<Item>
  {
    Sort(items, InOrder(property, Ascending(direction)))
  }

  /** `filterArrayByProperty`: the records whose property is `=== value`, in input order. */
  function FilterArrayByProperty(items: seq<Item>, property: string, value: Option<string>): seq<Item>
  {
    Filter(items, (item: Item) => Lookup(item, property) == value)
  }

  /** For records carrying the property, the comparator keeps `a` before `b` unless `b`'s value must come first. */
  lemma InOrderMeaning(a: Item, b: Item, property: string, ascending: bool)
    requires property in a && property in b
    ensures InOrder(property, ascending)(a, b) <==>
      if ascending then !Less(b[property], a[property]) else !Less(a[property], b[property])
  {
    if Less(a[property], b[property]) {
      LessAsymmetric(a[property], b[property]);
    }
  }

  /** Records that all carry the property are totally preordered by the comparator. */
  lemma InOrderTotalPreorder(s: seq<Item>, property: string, ascending: bool)
    requires forall item :: item in s ==> property in item
    ensures TotalPreorderOn(InOrder(property, ascending), s)
  {
    var le := InOrder(property, ascending);
    forall a, b | a in s && b in s ensures le(a, b) || le(b, a) {
      InOrderMeaning(a, b, property, ascending);
      InOrderMeaning(b, a, property, ascending);
      LessTotal(a[property], b[property]);
      if Less(a[property], b[property]) {
        LessAsymmetric(a[property], b[property]);
      }
    }
    forall a, b, c | a in s && b in s && c in s && le(a, b) && le(b, c) ensures le(a, c) {
      InOrderMeaning(a, b, property, ascending);
      InOrderMeaning(b, c, property, ascending);
      InOrderMeaning(a, c, property, ascending);
      var x, y, z := a[property], b[property], c[property];
      if ascending {
        LessTotal(x, y);
        if Less(z, x) && Less(x, y) { LessTransitive(z, x, y); }
      } else {
        LessTotal(y, z);
        if Less(x, z) && Less(z, y) { LessTransitive(x, z, y); }
      }
    }
  }

  /** The sorted copy holds exactly the records of the input. */
  lemma SortArrayByPropertyPermutes(items: seq<Item>, property: string, direction: Option<string>)
    ensures multiset(SortArrayByProperty(items, property, direction)) == multiset(items)
  {
    SortPermutes(items, InOrder(property, Ascending(direction)));
  }

  /**
   * When every record carries the property, the copy is ordered by it:
   * non-decreasing for `'asc'` (and no direction), non-increasing otherwise.
   */
  lemma SortArrayByPropertyOrdered(items: seq<Item>, property: string, direction: Option<string>)
    requires forall item :: item in items ==> property in item
    ensures var r := SortArrayByProperty(items, property, direction);
      forall i, j :: 0 <= i < j < |r| ==>
        && property in r[i] && property in r[j]
        && if Ascending(direction) then !Less(r[j][property], r[i][property])
           else !Less(r[i][property], r[j][property])
  {
    var le := InOrder(property, Ascending(direction));
    var r := SortArrayByProperty(items, property, direction);
    InOrderTotalPreorder(items, property, Ascending(direction));
    SortSorted(items, le);
    SortPermutes(items, le);
    forall i | 0 <= i < |r| ensures property in r[i] {
      assert r[i] in multiset(r);
    }
    forall i, j | 0 <= i < j < |r|
      ensures if Ascending(direction) then !Less(r[j][property], r[i][property])
              else !Less(r[i][property], r[j][property])
    {
      assert le(r[i], r[j]);
      InOrderMeaning(r[i], r[j], property, Ascending(direction));
    }
  }

  lemma {:induction false} SortKeepsEquivalent<T>(s: seq<T>, le: (T, T) -> bool)
    requires forall a, b :: a in s && b in s ==> le(a, b)
    ensures Sort(s, le) == s
  {
    if s != [] {
      var t := s[1..];
      assert forall a :: a in t ==> a in s;
      SortKeepsEquivalent(t, le);
      if t != [] {
        assert t[0] in s;
      }
    }
  }

  /**
   * The sort is stable: the records sharing a value of the property come out
   * in their input order.
   */
  lemma SortArrayByPropertyStable(items: seq<Item>, property: string, direction: Option<string>, value: string)
    requires forall item :: item in items ==> property in item
    ensures FilterArrayByProperty(SortArrayByProperty(items, property, direction), property, Some(value))
         == FilterArrayByProperty(items, property, Some(value))
  {
    var le := InOrder(property, Ascending(direction));
    var keep := (item: Item) => Lookup(item, property) == Some(value);
    InOrderTotalPreorder(items, property, Ascending(direction));
    SortFilterCommute(items, le, keep);
    var same := Filter(items, keep);
    forall a, b | a in same && b in same ensures le(a, b) {
      FilterMembership(items, keep, a);
      FilterMembership(items, keep, b);
      LessIrreflexive(value);
    }
    SortKeepsEquivalent(same, le);
  }

  /** The filtered list holds exactly the matching records, as a subsequence of the input. */
  lemma FilterArrayByPropertyExact(items: seq<Item>, property: string, value: Option<string>, item: Item)
    ensures item in FilterArrayByProperty(items, property, value) <==> item in items && Lookup(item, property) == value
    ensures IsSubsequence(FilterArrayByProperty(items, property, value), items)
  {
    FilterMembership(items, (item: Item) => Lookup(item, property) == value, item);
    FilterIsSubsequence(items, (item: Item) => Lookup(item, property) == value);
  }

  /** Filtering twice by the same property and value changes nothing. */
  lemma FilterArrayByPropertyIdempotent(items: seq<Item>, property: string, value: Option<string>)
    ensures var once := FilterArrayByProperty(items, property, value);
      FilterArrayByProperty(once, property, value) == once
  {
    FilterIdempotent(items, (item: Item) => Lookup(item, property) == value);
  }

  /** A header as the browser sends it: name and value. */
  type Header = (string, string)

  /**
   * The header map the server sees: Node.js lower-cases incoming header
   * names. Here a later header replaces an earlier one of the same name.
   */
  function Received(headers: seq<Header>): map<string, string>
    decreases |headers|
  {
    if headers == [] then map[]
    else Received(headers[..|headers| - 1])[Lower(headers[|headers| - 1].0) := headers[|headers| - 1].1]
  }

  /** No later header has the same lower-cased name as header `i`. */
  predicate LastWithName(headers: seq<Header>, i: nat)
    requires i < |headers|
  {
    forall j :: i < j < |headers| ==> Lower(headers[j].0) != Lower(headers[i].0)
  }

  /** The server sees a name exactly when some header was sent under it, lower-cased. */
  lemma {:induction false} ReceivedNames(headers: seq<Header>, k: string)
    ensures k in Received(headers) <==> exists i :: 0 <= i < |headers| && Lower(headers[i].0) == k
    decreases |headers|
  {
    if headers != [] {
      var n := |headers|;
      var init := headers[..n - 1];
      ReceivedNames(init, k);
      if k in Received(init) {
        var i :| 0 <= i < |init| && Lower(init[i].0) == k;
        assert headers[i] == init[i];
      }
      if exists i :: 0 <= i < n && Lower(headers[i].0) == k {
        var i :| 0 <= i < n && Lower(headers[i].0) == k;
        if i < n - 1 {
          assert init[i] == headers[i];
        }
      }
    }
  }

  /** Under each name the server sees the value of the last header sent with that name. */
  lemma {:induction false} ReceivedValue(headers: seq<Header>, i: nat)
    requires i < |headers| && LastWithName(headers, i)
    ensures Lower(headers[i].0) in Received(headers) && Received(headers)[Lower(headers[i].0)] == headers[i].1
    decreases |headers|
  {
    var n := |headers|;
    if i < n - 1 {
      var init := headers[..n - 1];
      assert Lower(headers[n - 1].0) != Lower(headers[i].0);
      assert LastWithName(init, i) by {
        forall j | i < j < |init| ensures Lower(init[j].0) != Lower(init[i].0) {
          assert init[j] == headers[j] && init[i] == headers[i];
        }
      }
      ReceivedValue(init, i);
    }
  }

  /** `getApiKeyHeaders`: a JSON content type and the key under `X-API-Key`. */
  function GetApiKeyHeaders(apiKey: string): seq<Header>
  {
    [("Content-Type", "application/json"), ("X-API-Key", apiKey)]
  }

  lemma ReceivedPair(a: Header, b: Header)
    ensures Received([a, b]) == map[Lower(a.0) := a.1][Lower(b.0) := b.1]
  {
    assert [a, b][..1] == [a] && [a][..0] == [];
    assert Received([a]) == map[Lower(a.0) := a.1];
  }

  lemma LowerContentType()
    ensures Lower("Content-Type") == "content-type"
  {
  }

  lemma LowerApiKeyName()
    ensures Lower("X-API-Key") == "x-api-key"
  {
  }

  /** The server receives exactly two headers: the JSON content type and the key under `x-api-key`. */
  lemma ApiKeyHeadersReceived(apiKey: string)
    ensures Received(GetApiKeyHeaders(apiKey)) == map["content-type" := "application/json", "x-api-key" := apiKey]
  {
    ReceivedPair(("Content-Type", "application/json"), ("X-API-Key", apiKey));
    LowerContentType();
    LowerApiKeyName();
  }

  /**
   * The headers the dashboards send carry the key to the middleware: a
   * non-empty key is the credential of the request, whatever its query string.
   */
  lemma ApiKeyHeadersCarryKey(apiKey: string, path: string, query: map<string, string>)
    requires apiKey != ""
    ensures Auth.Credential(Auth.Request(path, Received(GetApiKeyHeaders(apiKey)), query)) == Some(apiKey)
  {
    ApiKeyHeadersReceived(apiKey);
  }
}
