/**
 * `route(q)` and `stop(q)` (route_service.py:304-314): the query is turned
 * into text with `str`, case-folded, and looked up in the dictionary. The
 * dictionary holds every entity under two keys: its raw id and its folded
 * display name (lines 327-328 and 339-340).
 */
module Queries {
  import opened Wrappers
  import opened Entities

  /** The argument of `route`/`stop`: `Union[int, str, None]`. */
  datatype Query = Text(s: string) | Number(n: int) | NoValue

  function DigitChar(d: nat): char
    requires d < 10
  {
    "0123456789"[d]
  }

  /** `c` is a decimal digit. */
  predicate IsDigit(c: char) {
    '0' <= c <= '9'
  }

  /** The number a string of decimal digits denotes, most significant first. */
  function DecimalValue(ds: string): nat
    requires forall i :: 0 <= i < |ds| ==> IsDigit(ds[i])
  {
    if ds == [] then 0
    else
      var last := ds[|ds| - 1];
      assert IsDigit(last);
      DecimalValue(ds[..|ds| - 1]) * 10 + (last as int - '0' as int)
  }

  /**
   * `str` of a natural number: decimal digits, with no leading zero except
   * for zero itself, that denote the number.
   */
  function NatToString(n: nat): (r: string)
    ensures |r| > 0 && forall i :: 0 <= i < |r| ==> IsDigit(r[i])
    ensures r[0] == '0' <==> n == 0
    ensures DecimalValue(r) == n
    decreases n
  {
    if n < 10 then [DigitChar(n)]
    else
      var prefix := NatToString(n / 10);
      var r := prefix + [DigitChar(n % 10)];
      assert r[..|r| - 1] == prefix;
      r
  }

  /** `str` of the query. */
  function Str(q: Query): string {
    match q
    case Text(s) => s
    case Number(n) => if n < 0 then "-" + NatToString(-n) else NatToString(n)
    case NoValue => "None"
  }

  /** `index.get(str(q).casefold(), None)`: a hit is always an entity the index holds. */
  function Lookup<V(==)>(index: map<Key, V>, q: Query): (found: Option<V>)
    ensures found.Some? <==> Fold(Str(q)) in index
    ensures found.Some? ==> found.value in index.Values
  {
    var k := Fold(Str(q));
    if k in index then Some(index[k]) else None
  }

  /** Two queries that differ only in ASCII letter case find the same entity. */
  lemma LookupIgnoresCase<V>(index: map<Key, V>, a: string, b: string)
    requires Fold(a) == Fold(b)
    ensures Lookup(index, Text(a)) == Lookup(index, Text(b))
  {
  }

  /**
   * Just after a route (or stop) is entered, a query by its display name in
   * any letter case finds it, and so does a query by its id when the id is
   * already in folded form.
   */
  lemma LookupFindsNewEntry(index: map<Key, RouteId>, r: RouteId, name: string, q: string)
    requires Fold(q) == Fold(name) || (q == r && Fold(r) == r)
    ensures Lookup(index[r := r][Fold(name) := r], Text(q)) == Some(r)
  {
  }

  /**
   * The index as written stores the raw id but folds the query, so an id
   * with an upper-case letter is never found by its own text: route "Red"
   * with long name "Red Line" is stored under "Red" and "red line", and the
   * query "Red" looks up "red".
   */
  lemma IdLookupMissesUnfoldedId()
    ensures Lookup(map["Red" := "Red"][Fold("Red Line") := "Red"], Text("Red")) == None
  {
    assert Fold("Red") == "red" by {
      assert Fold("Red")[0] == Lower('R') == 'r';
    }
    assert Fold("Red Line") == "red line" by {
      var f := Fold("Red Line");
      assert f[0] == Lower('R') == 'r';
      assert |f| == 8;
    }
  }

  /**
   * The evident intent, shown by test_route_service.py:2083-2084, which find
   * route `Red` both by its id and by its long name: try the raw text first,
   * then the folded text.
   */
  function LookupIdOrName<V(==)>(index: map<Key, V>, q: Query): (found: Option<V>)
    ensures Lookup(index, q).Some? ==> found.Some?
    ensures found.Some? <==> Str(q) in index || Fold(Str(q)) in index
    ensures found.Some? ==> found.value in index.Values
    ensures Str(q) in index ==> found == Some(index[Str(q)])
  {
    var raw := Str(q);
    if raw in index then Some(index[raw]) else Lookup(index, q)
  }

  /**
   * With the corrected lookup an entity just entered is found by its raw id
   * whatever its case, and still by its display name in any letter case
   * unless that name, as typed, is itself another key.
   */
  lemma LookupIdOrNameFindsNewEntry(index: map<Key, RouteId>, r: RouteId, name: string, q: string)
    requires q == r || (Fold(q) == Fold(name) && (q !in index || q == Fold(name)))
    ensures LookupIdOrName(index[r := r][Fold(name) := r], Text(q)) == Some(r)
  {
  }

  /** The query that misses in the index as written is found by the corrected lookup. */
  lemma IdOrNameFindsUnfoldedId()
    ensures LookupIdOrName(map["Red" := "Red"][Fold("Red Line") := "Red"], Text("Red")) == Some("Red")
    ensures LookupIdOrName(map["Red" := "Red"][Fold("Red Line") := "Red"], Text("Red Line")) == Some("Red")
  {
    LookupIdOrNameFindsNewEntry(map[], "Red", "Red Line", "Red");
    LookupIdOrNameFindsNewEntry(map[], "Red", "Red Line", "Red Line");
  }
}
