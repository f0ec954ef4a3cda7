/** Python-side values the server works with: decoded JSON, Python's truth test,
    the exceptions the modelled code can raise, and insertion-ordered dicts. */
module PyCore {

  datatype Option<+T> = None | Some(value: T)

  /** The built-in exceptions raised by the modelled Python code. */
  datatype PyError = KeyError | IndexError | TypeError | ValueError | AttributeError

  datatype Result<+T> = Ok(value: T) | Err(error: PyError)

  /** A decoded JSON value (what psycopg returns for a JSONB column and what
      FastAPI hands over for a JSON request body). Objects keep their key order. */
  datatype Json =
    | JNull
    | JBool(b: bool)
    | JNum(n: real)
    | JStr(s: string)
    | JArr(items: seq<Json>)
    | JObj(entries: seq<(string, Json)>)

  /** Python's truth test (`if v:`): None, False, zero, and empty strings,
      lists and dicts are falsy; everything else is truthy. */
  predicate Truthy(v: Json)
  {
    match v
    case JNull => false
    case JBool(b) => b
    case JNum(n) => n != 0.0
    case JStr(s) => s != ""
    case JArr(xs) => xs != []
    case JObj(es) => es != []
  }

  /** A Python dict with string keys, in insertion order. */
  type Dict<V> = seq<(string, V)>

  function Keys<V>(d: Dict<V>): (ks: seq<string>)
    ensures |ks| == |d|
    ensures forall i :: 0 <= i < |d| ==> ks[i] == d[i].0
  {
    seq(|d|, i requires 0 <= i < |d| => d[i].0)
  }

  /** No key occurs twice: what every Python dict guarantees. */
  predicate DistinctKeys<V>(d: Dict<V>)
  {
    forall i, j :: 0 <= i < j < |d| ==> d[i].0 != d[j].0
  }

  /** Where `k` first sits in `d`, or -1 when it is not a key. */
  function KeyIndex<V>(d: Dict<V>, k: string): (i: int)
    ensures -1 <= i < |d|
    ensures i >= 0 ==> d[i].0 == k && forall j :: 0 <= j < i ==> d[j].0 != k
    ensures i == -1 <==> k !in Keys(d)
  {
    if d == [] then -1
    else
      var init := d[..|d| - 1];
      var i := KeyIndex(init, k);
      assert Keys(d) == Keys(init) + [d[|d| - 1].0];
      if i >= 0 then i
      else if d[|d| - 1].0 == k then |d| - 1
      else -1
  }

  /** `d.get(k)`: the value stored under `k`, if any. */
  function Get<V>(d: Dict<V>, k: string): (r: Option<V>)
    ensures r.Some? <==> k in Keys(d)
    ensures r.Some? ==> (k, r.value) in d
  {
    var i := KeyIndex(d, k);
    if i == -1 then None else Some(d[i].1)
  }

  /** `d[k] = v`: an existing key keeps its position and takes the new value,
      a new key goes to the end. */
  function Put<V>(d: Dict<V>, k: string, v: V): (r: Dict<V>)
    ensures k in Keys(d) ==> |r| == |d| && Keys(r) == Keys(d)
    ensures k !in Keys(d) ==> r == d + [(k, v)]
  {
    var i := KeyIndex(d, k);
    if i == -1 then d + [(k, v)]
    else
      var r := d[i := (k, v)];
      assert Keys(r) == Keys(d);
      r
  }

  /** The first position holding `k` is the one KeyIndex finds. */
  lemma KeyIndexAt<V>(d: Dict<V>, k: string, i: nat)
    requires i < |d| && d[i].0 == k
    requires forall j :: 0 <= j < i ==> d[j].0 != k
    ensures KeyIndex(d, k) == i
  {
    assert Keys(d)[i] == k;
  }

  /** After `d[k] = v`, `k` reads back `v`. */
  lemma PutGetSame<V>(d: Dict<V>, k: string, v: V)
    ensures Get(Put(d, k, v), k) == Some(v)
  {
    var r := Put(d, k, v);
    var i := KeyIndex(d, k);
    if i == -1 {
      forall j | 0 <= j < |d| ensures r[j].0 != k {
        assert Keys(d)[j] == d[j].0;
      }
      KeyIndexAt(r, k, |d|);
    } else {
      KeyIndexAt(r, k, i);
    }
  }

  /** `d[k] = v` changes at most the entry under `k`, or appends one. */
  lemma PutEntries<V>(d: Dict<V>, k: string, v: V)
    ensures |d| <= |Put(d, k, v)| <= |d| + 1
    ensures forall m :: 0 <= m < |d| ==> Put(d, k, v)[m] == d[m] || (Put(d, k, v)[m] == (k, v) && d[m].0 == k)
    ensures forall m :: |d| <= m < |Put(d, k, v)| ==> Put(d, k, v)[m] == (k, v)
  {
  }

  /** After `d[k] = v`, every other key reads as before. */
  lemma PutGetOther<V>(d: Dict<V>, k: string, v: V, k': string)
    requires k' != k
    ensures Get(Put(d, k, v), k') == Get(d, k')
  {
    var r := Put(d, k, v);
    PutEntries(d, k, v);
    var j := KeyIndex(d, k');
    if j == -1 {
      forall m | 0 <= m < |r| ensures Keys(r)[m] != k' {
        if m < |d| {
          assert Keys(d)[m] == d[m].0;
        }
      }
    } else {
      KeyIndexAt(r, k', j);
    }
  }

  /** After `d[k] = v` the keys are the old keys and `k`. */
  lemma PutKeys<V>(d: Dict<V>, k: string, v: V)
    ensures forall k' :: k' in Keys(Put(d, k, v)) <==> k' in Keys(d) || k' == k
  {
    if k !in Keys(d) {
      assert Keys(d + [(k, v)]) == Keys(d) + [k];
    }
  }

  /** `d[k] = v` never creates a second copy of a key. */
  lemma PutDistinct<V>(d: Dict<V>, k: string, v: V)
    requires DistinctKeys(d)
    ensures DistinctKeys(Put(d, k, v))
  {
    if k !in Keys(d) {
      forall j | 0 <= j < |d| ensures d[j].0 != k {
        assert Keys(d)[j] == d[j].0;
      }
    }
  }

  /** A prefix one longer is the shorter prefix and the next element. */
  lemma PrefixSnoc<T>(d: seq<T>, n: nat)
    requires 0 < n <= |d|
    ensures d[..n - 1] + [d[n - 1]] == d[..n]
  {
  }

  /** The keys of a prefix one longer are those of the shorter prefix and
      the next key. */
  lemma KeysSnoc<V>(d: Dict<V>, n: nat)
    requires 0 < n <= |d|
    ensures forall k :: k in Keys(d[..n]) <==> k in Keys(d[..n - 1]) || k == d[n - 1].0
  {
    assert Keys(d[..n]) == Keys(d[..n - 1]) + [d[n - 1].0];
  }

  /** The keys of a non-empty dict are those of all but its last entry and
      the last key. */
  lemma KeysLast<V>(d: Dict<V>)
    requires d != []
    ensures forall k :: k in Keys(d) <==> k in Keys(d[..|d| - 1]) || k == d[|d| - 1].0
  {
    assert Keys(d) == Keys(d[..|d| - 1]) + [d[|d| - 1].0];
  }

  /** With distinct keys, no key occurs in the prefix before it. */
  lemma LastKeyFresh<V>(d: Dict<V>, n: nat)
    requires DistinctKeys(d) && 0 < n <= |d|
    ensures d[n - 1].0 !in Keys(d[..n - 1])
  {
    var prefix := d[..n - 1];
    forall j | 0 <= j < n - 1 ensures Keys(prefix)[j] != d[n - 1].0 {
      assert prefix[j] == d[j];
    }
  }

  /** `P` holds of every element, stated along a left fold. */
  predicate AllAlong<T>(xs: seq<T>, P: T -> bool)
  {
    xs == [] || (AllAlong(xs[..|xs| - 1], P) && P(xs[|xs| - 1]))
  }

  lemma {:induction false} AllAlongEach<T>(xs: seq<T>, P: T -> bool)
    ensures AllAlong(xs, P) <==> forall i :: 0 <= i < |xs| ==> P(xs[i])
  {
    if xs != [] {
      var n := |xs| - 1;
      var init := xs[..n];
      AllAlongEach(init, P);
      assert forall i :: 0 <= i < n ==> init[i] == xs[i];
      assert (forall i :: 0 <= i < |xs| ==> P(xs[i]))
         <==> (forall i :: 0 <= i < n ==> P(init[i])) && P(xs[n]);
    }
  }

  /** `obj[key]` on a decoded JSON value: a missing key is a KeyError and
      subscripting anything but a dict with a string is a TypeError. */
  function Subscript(v: Json, key: string): (r: Result<Json>)
    ensures r.Ok? <==> v.JObj? && key in Keys(v.entries)
    ensures r.Ok? ==> Get(v.entries, key) == Some(r.value)
    ensures v.JObj? && key !in Keys(v.entries) ==> r == Err(KeyError)
    ensures !v.JObj? ==> r == Err(TypeError)
  {
    match v
    case JObj(es) => (match Get(es, key) case Some(x) => Ok(x) case None => Err(KeyError))
    case _ => Err(TypeError)
  }

  /** `xs[i]` on a decoded JSON value, for a non-negative index. */
  function At(v: Json, i: nat): (r: Result<Json>)
    ensures v.JArr? && i < |v.items| ==> r == Ok(v.items[i])
    ensures v.JArr? && i >= |v.items| ==> r == Err(IndexError)
    ensures r.Err? ==> r.error in {IndexError, KeyError, TypeError}
  {
    match v
    case JArr(xs) => if i < |xs| then Ok(xs[i]) else Err(IndexError)
    case JStr(s) => if i < |s| then Ok(JStr([s[i]])) else Err(IndexError)
    case JObj(_) => Err(KeyError)
    case _ => Err(TypeError)
  }

  /** ASCII lower-casing of one character. */
  function LowerChar(c: char): (r: char)
    ensures 'A' <= c <= 'Z' ==> 'a' <= r <= 'z' && r as int == c as int + 32
    ensures !('A' <= c <= 'Z') ==> r == c
  {
    if 'A' <= c <= 'Z' then (c as int + 32) as char else c
  }

  /** `s.lower()` restricted to ASCII letters. */
  function Lower(s: string): (r: string)
    ensures |r| == |s|
    ensures forall i :: 0 <= i < |s| ==> r[i] == LowerChar(s[i])
  {
    seq(|s|, i requires 0 <= i < |s| => LowerChar(s[i]))
  }
}
