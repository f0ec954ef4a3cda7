/** The string and list helpers of webapp/src/utils/utils.ts:
    `nextElementInList`, `hashCode`, `getLabel` and `titleCase`. JavaScript
    strings are sequences of UTF-16 code units; JavaScript numbers are
    doubles, which hold every intermediate value below exactly, so they are
    modelled as integers with the 32-bit conversions written out. */
module WebUtils {
  import opened PyCore

  // ---------------------------------------------------------------------
  // nextElementInList (lines 4-8)

  /** `arr.indexOf(val)`: the first index holding `val`, or -1. */
  function IndexOf<T(==)>(arr: seq<T>, val: T): (i: int)
    ensures -1 <= i < |arr|
    ensures i >= 0 ==> arr[i] == val && forall j :: 0 <= j < i ==> arr[j] != val
    ensures i == -1 <==> val !in arr
  {
    if arr == [] then -1
    else if arr[0] == val then 0
    else
      var i := IndexOf(arr[1..], val);
      assert arr == [arr[0]] + arr[1..];
      if i == -1 then -1 else i + 1
  }

  /** `nextElementInList(arr, val)`: `arr[(idx + 1) % arr.length]`. On an
      empty array the remainder is NaN and the result `undefined` (None);
      `idx + 1` is never negative, so JavaScript's `%` agrees with `%` here. */
  function NextElementInList<T(==)>(arr: seq<T>, val: T): (r: Option<T>)
    ensures r.Some? <==> arr != []
    ensures r.Some? ==> r.value in arr
  {
    if arr == [] then None
    else Some(arr[(IndexOf(arr, val) + 1) % |arr|])
  }

  /** `(idx + 1) % arr.length` for `-1 <= idx < arr.length`: the next index,
      wrapping to 0 after the last. */
  lemma WrapIndex(x: int, n: int)
    requires 0 <= x <= n && n > 0
    ensures x % n == if x < n then x else 0
  {
  }

  /** The element after the first occurrence of `val`, wrapping from the last
      index to the first; an absent `val` gives the first element. */
  lemma NextElementAfter<T>(arr: seq<T>, val: T, i: nat)
    requires i < |arr| && arr[i] == val
    requires forall j :: 0 <= j < i ==> arr[j] != val
    ensures NextElementInList(arr, val) == Some(arr[if i + 1 < |arr| then i + 1 else 0])
  {
    var j := IndexOf(arr, val);
    assert j == i;
    WrapIndex(i + 1, |arr|);
  }

  lemma NextElementAbsent<T>(arr: seq<T>, val: T)
    requires arr != [] && val !in arr
    ensures NextElementInList(arr, val) == Some(arr[0])
  {
    WrapIndex(0, |arr|);
  }

  /** On a list without repeats, different elements have different
      successors, so repeated stepping goes round the whole list. */
  lemma NextElementInjective<T>(arr: seq<T>, i: nat, j: nat)
    requires forall p, q :: 0 <= p < q < |arr| ==> arr[p] != arr[q]
    requires i < |arr| && j < |arr|
    requires NextElementInList(arr, arr[i]) == NextElementInList(arr, arr[j])
    ensures i == j
  {
    NextElementAfter(arr, arr[i], i);
    NextElementAfter(arr, arr[j], j);
    var n := |arr|;
    var ni := if i + 1 < n then i + 1 else 0;
    var nj := if j + 1 < n then j + 1 else 0;
    assert arr[ni] == arr[nj];
    assert ni == nj;
  }

  // ---------------------------------------------------------------------
  // hashCode (lines 29-42)

  /** A UTF-16 code unit, what `charCodeAt` returns. */
  type CodeUnit = x: int | 0 <= x < 0x1_0000

  /** The UTF-16 encoding of one character: one unit in the Basic
      Multilingual Plane, a surrogate pair above it. */
  function CodeUnitsOf(c: char): (r: seq<CodeUnit>)
    ensures |r| == if c as int < 0x1_0000 then 1 else 2
  {
    var v := c as int;
    if v < 0x1_0000 then [v]
    else [0xD800 + (v - 0x1_0000) / 0x400, 0xDC00 + (v - 0x1_0000) % 0x400]
  }

  /** The code units of a JavaScript string holding `s`. */
  function Utf16(s: string): (r: seq<CodeUnit>)
    ensures |r| >= |s|
    ensures |r| == 0 <==> |s| == 0
  {
    if s == [] then [] else CodeUnitsOf(s[0]) + Utf16(s[1..])
  }

  /** JavaScript's ToInt32 (what `x | 0` and `x << n` apply): the value
      congruent to x modulo 2^32 in [-2^31, 2^31). */
  function ToInt32(x: int): (r: int)
    ensures -0x8000_0000 <= r < 0x8000_0000
    ensures (x - r) % 0x1_0000_0000 == 0
  {
    var m := x % 0x1_0000_0000;
    if m >= 0x8000_0000 then m - 0x1_0000_0000 else m
  }

  /** ToInt32 only sees its argument modulo 2^32. */
  lemma ToInt32Congruent(x: int, y: int)
    requires (x - y) % 0x1_0000_0000 == 0
    ensures ToInt32(x) == ToInt32(y)
  {
    var k := (x - y) / 0x1_0000_0000;
    assert x == y + k * 0x1_0000_0000;
    ModuloShift(y, k);
  }

  lemma ModuloShift(y: int, k: int)
    ensures (y + k * 0x1_0000_0000) % 0x1_0000_0000 == y % 0x1_0000_0000
  {
  }

  /** The hash of the first units of a string: `h = int32(31 * h + unit)`
      from 0, the String.hashCode recurrence of Java. */
  function HashFold(units: seq<CodeUnit>): (h: int)
    ensures -0x8000_0000 <= h < 0x8000_0000
  {
    if units == [] then 0
    else ToInt32(31 * HashFold(units[..|units| - 1]) + units[|units| - 1])
  }

  /** One round of the loop body: `(hash << 5) - hash + chr`, then `|= 0`,
      is the recurrence above. */
  lemma ShiftSubtractStep(h: int, c: int)
    ensures ToInt32(ToInt32(h * 32) - h + c) == ToInt32(31 * h + c)
  {
    var s := ToInt32(h * 32);
    assert (h * 32 - s) % 0x1_0000_0000 == 0;
    assert (s - h + c) - (31 * h + c) == -(h * 32 - s);
    ToInt32Congruent(s - h + c, 31 * h + c);
  }

  /** `hashCode(s)`. */
  method HashCode(s: string) returns (hash: int)
    ensures hash == HashFold(Utf16(s))
    ensures -0x8000_0000 <= hash < 0x8000_0000
    ensures s == [] ==> hash == 0
  {
    hash := 0;
    if s == [] {
      return;
    }
    var units := Utf16(s);
    var i := 0;
    while i < |units|
      invariant 0 <= i <= |units|
      invariant hash == HashFold(units[..i])
    {
      assert units[..i + 1][..i] == units[..i];
      var chr := units[i];
      ShiftSubtractStep(hash, chr);
      hash := ToInt32(ToInt32(hash * 32) - hash + chr);
      i := i + 1;
    }
    assert units[..i] == units;
  }

  // ---------------------------------------------------------------------
  // getLabel (lines 44-66)

  /** The class strings of the nine cases of the switch, in case order. */
  const Labels: seq<string> := [
    "bg-indigo-500 border rounded-2xl p-2",
    "bg-purple-600 rounded-2xl p-2",
    "bg-teal-400 rounded-2xl p-2",
    "bg-orange-400 rounded-2xl p-2",
    "bg-rose-500 rounded-2xl p-2",
    "bg-amber-400 border rounded-2xl p-2",
    "bg-lime-600 rounded-2xl p-2",
    "bg-emerald-600 rounded-2xl p-2",
    "bg-fuchsia-400 rounded-2xl p-2"
  ]

  /** JavaScript's `a % b` for b > 0: the remainder takes the sign of the
      dividend (truncating division). */
  function JsRem(a: int, b: int): int
    requires b > 0
  {
    if a >= 0 then a % b else -((-a) % b)
  }

  /** `crc % 9` lies in -8..8; it is the non-negative remainder for a
      non-negative hash, and for a negative hash it is negative unless the
      hash is a multiple of 9 (then -0, which the `switch` matches as 0). */
  lemma JsRemNine(a: int)
    ensures -9 < JsRem(a, 9) < 9
    ensures a >= 0 ==> JsRem(a, 9) == a % 9
    ensures a < 0 ==> JsRem(a, 9) <= 0 && (JsRem(a, 9) == 0 <==> a % 9 == 0)
  {
    if a < 0 {
      assert (-a) % 9 == 0 <==> a % 9 == 0;
    }
  }

  /** `getLabel(s)` as written: None stands for `undefined`, returned when
      no case matches. */
  function GetLabel(s: string): (r: Option<string>)
    ensures r.Some? ==> r.value in Labels
    ensures HashFold(Utf16(s)) >= 0 ==> r.Some?
  {
    var rem := JsRem(HashFold(Utf16(s)), 9);
    if 0 <= rem < 9 then Some(Labels[rem]) else None
  }

  /** A label is returned exactly when the hash is non-negative or a
      multiple of 9; it is then the class string of case `hash % 9`. */
  lemma GetLabelDefined(s: string)
    ensures var h := HashFold(Utf16(s));
      && (GetLabel(s).Some? <==> h >= 0 || h % 9 == 0)
      && (GetLabel(s).Some? ==> GetLabel(s) == Some(Labels[h % 9]))
  {
    JsRemNine(HashFold(Utf16(s)));
  }

  lemma StatusUnits()
    ensures Utf16("status") == [115, 116, 97, 116, 117, 115]
  {
    assert Utf16("s") == [115];
    assert Utf16("us") == [117, 115];
    assert Utf16("tus") == [116, 117, 115];
    assert Utf16("atus") == [97, 116, 117, 115];
    assert Utf16("tatus") == [116, 97, 116, 117, 115];
  }

  lemma StatusPrefixHash(u: seq<CodeUnit>)
    requires u == [115, 116, 97, 116, 117, 115]
    ensures HashFold(u[..5]) == 109757601
  {
    assert u[..1][..0] == [];
    assert HashFold(u[..1]) == 115;
    assert u[..2][..1] == u[..1];
    assert HashFold(u[..2]) == 3681;
    assert u[..3][..2] == u[..2];
    assert HashFold(u[..3]) == 114208;
    assert u[..4][..3] == u[..3];
    assert HashFold(u[..4]) == 3540564;
    assert u[..5][..4] == u[..4];
  }

  /** "status" has no label: its hash is -892481550, and
      -892481550 % 9 is -6 in JavaScript. */
  lemma StatusHasNoLabel()
    ensures HashFold(Utf16("status")) == -892481550
    ensures GetLabel("status") == None
  {
    StatusUnits();
    var u: seq<CodeUnit> := [115, 116, 97, 116, 117, 115];
    StatusPrefixHash(u);
    assert u[..5] == u[..|u| - 1];
    assert HashFold(u) == -892481550;
    JsRemNine(-892481550);
  }

  /** The evidently intended `getLabel`: the remainder taken non-negative,
      so every string gets one of the nine labels. */
  function GetLabelTotal(s: string): (r: string)
    ensures r in Labels
  {
    Labels[HashFold(Utf16(s)) % 9]
  }

  /** Where the written `getLabel` gives a label, the intended one gives the
      same label. */
  lemma GetLabelTotalAgrees(s: string)
    ensures GetLabel(s).Some? ==> GetLabel(s) == Some(GetLabelTotal(s))
    ensures GetLabel("status") == None && GetLabelTotal("status") in Labels
  {
    GetLabelDefined(s);
    StatusHasNoLabel();
  }

  // ---------------------------------------------------------------------
  // titleCase (lines 68-71)

  predicate IsDash(c: char)
  {
    c == '-' || c == '_'
  }

  predicate AsciiLower(c: char)
  {
    'a' <= c <= 'z'
  }

  /** What the regular-expression `.` does not match. */
  predicate IsLineTerminator(c: char)
  {
    c == '\n' || c == '\r' || c == '\U{2028}' || c == '\U{2029}'
  }

  /** `c.toUpperCase()` on ASCII letters. */
  function UpperChar(c: char): (r: char)
    ensures 'a' <= c <= 'z' ==> 'A' <= r <= 'Z' && r as int == c as int - 32
    ensures !('a' <= c <= 'z') ==> r == c
  {
    if 'a' <= c <= 'z' then (c as int - 32) as char else c
  }

  /** The length of the run of `-` and `_` at the front of `s`. */
  function DashRun(s: string): (k: nat)
    ensures k <= |s|
    ensures forall i :: 0 <= i < k ==> IsDash(s[i])
    ensures k == |s| || !IsDash(s[k])
  {
    if s != [] && IsDash(s[0]) then 1 + DashRun(s[1..]) else 0
  }

  /** The first replace, `/^[-_]*(.)/`: the character after the leading run
      is upper-cased and the run dropped. When that character is missing or
      a line terminator, the greedy run gives back its last dash for `.` to
      match, so only the rest of the run goes; with no run there is no
      match. */
  function CapitalizeFirst(s: string): (r: string)
    ensures |r| <= |s|
    ensures r == [] <==> s == []
    ensures r != [] ==> !AsciiLower(r[0])
  {
    var k := DashRun(s);
    if k < |s| && !IsLineTerminator(s[k]) then [UpperChar(s[k])] + s[k + 1..]
    else if k >= 1 then s[k - 1..]
    else s
  }

  /** The second replace, `/[-_]+(.)/g`, scanning left to right: a run
      followed by a character becomes `_` and that character upper-cased;
      a run of two or more before a line terminator or the end keeps its
      last dash behind the `_`; a lone dash there does not match. */
  function ReplaceRuns(s: string): (r: string)
    ensures r == [] <==> s == []
    ensures s != [] && !IsDash(s[0]) ==> r[0] == s[0]
    ensures s != [] && IsDash(s[0]) ==> IsDash(r[0])
    decreases |s|
  {
    if s == [] then []
    else if !IsDash(s[0]) then [s[0]] + ReplaceRuns(s[1..])
    else
      var m := DashRun(s);
      if m < |s| && !IsLineTerminator(s[m]) then ['_', UpperChar(s[m])] + ReplaceRuns(s[m + 1..])
      else if m >= 2 then ['_', s[m - 1]] + ReplaceRuns(s[m..])
      else [s[0]] + ReplaceRuns(s[1..])
  }

  /** `titleCase(s)`. */
  function TitleCase(s: string): (r: string)
    ensures r == [] <==> s == []
    ensures r != [] ==> !AsciiLower(r[0])
  {
    ReplaceRuns(CapitalizeFirst(s))
  }

  /** A string without `-` and `_` passes the second replace unchanged. */
  lemma {:induction false} ReplaceRunsDashFree(s: string)
    requires forall i :: 0 <= i < |s| ==> !IsDash(s[i])
    ensures ReplaceRuns(s) == s
  {
    if s != [] {
      ReplaceRunsDashFree(s[1..]);
    }
  }

  /** A prefix without `-` and `_` is copied, and the replace carries on
      after it. */
  lemma {:induction false} ReplaceRunsDashFreePrefix(p: string, t: string)
    requires forall i :: 0 <= i < |p| ==> !IsDash(p[i])
    ensures ReplaceRuns(p + t) == p + ReplaceRuns(t)
  {
    if p != [] {
      assert (p + t)[0] == p[0] && !IsDash(p[0]);
      assert (p + t)[1..] == p[1..] + t;
      ReplaceRunsDashFreePrefix(p[1..], t);
      assert ReplaceRuns(p + t) == [p[0]] + ReplaceRuns(p[1..] + t);
      assert p == [p[0]] + p[1..];
    } else {
      assert p + t == t;
    }
  }

  /** The second replace never lengthens a string. */
  lemma {:induction false} ReplaceRunsShorter(s: string)
    ensures |ReplaceRuns(s)| <= |s|
    decreases |s|
  {
    if s != [] {
      var m := DashRun(s);
      if !IsDash(s[0]) || (!(m < |s| && !IsLineTerminator(s[m])) && m < 2) {
        ReplaceRunsShorter(s[1..]);
      } else if m < |s| && !IsLineTerminator(s[m]) {
        ReplaceRunsShorter(s[m + 1..]);
      } else {
        ReplaceRunsShorter(s[m..]);
      }
    }
  }

  /** The front of the second replace's result: a non-dash character is
      copied, and a lone dash before a line terminator or the end is kept
      together with what follows it. */
  lemma ReplaceRunsFront(t: string)
    ensures t == [] ==> ReplaceRuns(t) == []
    ensures t != [] && !IsDash(t[0]) ==> ReplaceRuns(t) == [t[0]] + ReplaceRuns(t[1..])
    ensures t != [] && IsDash(t[0]) && (|t| == 1 || IsLineTerminator(t[1])) ==>
      ReplaceRuns(t) == [t[0]] + ReplaceRuns(t[1..])
  {
  }

  /** A character the second replace copies, in front of a fixed point, gives
      a fixed point: a non-dash, or a lone dash before a line terminator or
      the end. */
  lemma FrontCopiedFixed(c: char, rest: string)
    requires !IsDash(c) || rest == [] || IsLineTerminator(rest[0])
    requires ReplaceRuns(rest) == rest
    ensures ReplaceRuns([c] + rest) == [c] + rest
  {
    var out := [c] + rest;
    assert out[1..] == rest;
    ReplaceRunsFront(out);
  }

  /** `_` and an upper-cased character before a fixed point is a fixed point. */
  lemma UpperedRunFixed(u: char, rest: string)
    requires !IsDash(u) && !IsLineTerminator(u) && !AsciiLower(u)
    requires ReplaceRuns(rest) == rest
    ensures ReplaceRuns(['_', u] + rest) == ['_', u] + rest
  {
    var out := ['_', u] + rest;
    assert out[1..][1..] == rest;
    assert DashRun(out[1..]) == 0;
    assert DashRun(out) == 1;
    assert out[2..] == rest;
  }

  /** `_` and a kept dash before a line terminator or the end, followed by
      a fixed point, is a fixed point. */
  lemma KeptRunFixed(d: char, rest: string)
    requires IsDash(d) && (rest == [] || IsLineTerminator(rest[0]))
    requires ReplaceRuns(rest) == rest
    ensures ReplaceRuns(['_', d] + rest) == ['_', d] + rest
  {
    var out := ['_', d] + rest;
    assert out[1..][1..] == rest;
    assert DashRun(out[1..][1..]) == 0;
    assert DashRun(out) == 2;
    assert out[2..] == rest;
  }

  /** Two calls of the second replace do what one does. */
  lemma {:induction false} ReplaceRunsIdempotent(s: string)
    ensures ReplaceRuns(ReplaceRuns(s)) == ReplaceRuns(s)
    decreases |s|
  {
    if s != [] {
      var out := ReplaceRuns(s);
      var m := DashRun(s);
      if !IsDash(s[0]) {
        var rest := ReplaceRuns(s[1..]);
        assert out == [s[0]] + rest;
        ReplaceRunsIdempotent(s[1..]);
        FrontCopiedFixed(s[0], rest);
      } else if m < |s| && !IsLineTerminator(s[m]) {
        var rest := ReplaceRuns(s[m + 1..]);
        assert out == ['_', UpperChar(s[m])] + rest;
        ReplaceRunsIdempotent(s[m + 1..]);
        UpperedRunFixed(UpperChar(s[m]), rest);
      } else if m >= 2 {
        var rest := ReplaceRuns(s[m..]);
        assert out == ['_', s[m - 1]] + rest;
        ReplaceRunsIdempotent(s[m..]);
        ReplaceRunsFront(s[m..]);
        KeptRunFixed(s[m - 1], rest);
      } else {
        var rest := ReplaceRuns(s[1..]);
        assert out == [s[0]] + rest;
        ReplaceRunsIdempotent(s[1..]);
        ReplaceRunsFront(s[1..]);
        FrontCopiedFixed(s[0], rest);
      }
    }
  }

  /** The first replace leaves alone a string that starts with a character
      already upper-case (or not a letter), with a line terminator, or
      with a lone dash before a line terminator or the end. */
  lemma CapitalizeFirstFixes(u: string)
    requires u == []
      || (!IsDash(u[0]) && (IsLineTerminator(u[0]) || UpperChar(u[0]) == u[0]))
      || (IsDash(u[0]) && (|u| == 1 || IsLineTerminator(u[1])))
    ensures CapitalizeFirst(u) == u
  {
    if u != [] && IsDash(u[0]) {
      assert DashRun(u) == 1;
    } else if u != [] {
      assert [u[0]] + u[1..] == u;
    }
  }

  /** `titleCase` is idempotent. */
  lemma TitleCaseIdempotent(s: string)
    ensures TitleCase(TitleCase(s)) == TitleCase(s)
  {
    var t := CapitalizeFirst(s);
    var k := DashRun(s);
    var r := ReplaceRuns(t);
    ReplaceRunsFront(t);
    if k < |s| && !IsLineTerminator(s[k]) {
      assert t[0] == UpperChar(s[k]);
      CapitalizeFirstFixes(r);
    } else if k >= 1 {
      assert t == s[k - 1..];
      ReplaceRunsFront(t[1..]);
      CapitalizeFirstFixes(r);
    } else {
      CapitalizeFirstFixes(r);
    }
    ReplaceRunsIdempotent(t);
  }

  lemma CapitalizeSnakeName()
    ensures CapitalizeFirst("_id-no") == "Id-no"
  {
    var s := "_id-no";
    assert s[1..] == "id-no";
    assert DashRun(s[1..]) == 0;
    assert DashRun(s) == 1;
  }

  lemma ReplaceInnerRun()
    ensures ReplaceRuns("-no") == "_No"
  {
    var rest := "-no";
    assert rest[1..] == "no";
    assert DashRun(rest[1..]) == 0;
    assert DashRun(rest) == 1;
    ReplaceRunsDashFree(rest[2..]);
  }

  /** The leading run is dropped and the next character upper-cased; the
      inner run becomes one `_` before an upper-cased character. */
  lemma TitleCaseSnakeName()
    ensures TitleCase("_id-no") == "Id_No"
  {
    CapitalizeSnakeName();
    ReplaceInnerRun();
    SnakeNameSplits();
    TitleCaseAfterPrefix("_id-no", "Id", "-no", "_No");
  }

  /** When the first replace leaves a dash-free prefix `p` before `t`, the
      title is `p` followed by the second replace of `t`. */
  lemma TitleCaseAfterPrefix(s: string, p: string, t: string, u: string)
    requires CapitalizeFirst(s) == p + t && ReplaceRuns(t) == u
    requires forall i :: 0 <= i < |p| ==> !IsDash(p[i])
    ensures TitleCase(s) == p + u
  {
    ReplaceRunsDashFreePrefix(p, t);
  }

  lemma SnakeNameSplits()
    ensures "Id" + "-no" == "Id-no"
    ensures "Id" + "_No" == "Id_No"
  {
  }

  /** A trailing run of two dashes keeps its last dash behind the `_`. */
  lemma TitleCaseTrailingRun()
    ensures TitleCase("a__") == "A__"
  {
    assert CapitalizeFirst("a__") == "A__";
    assert DashRun("__") == 2;
    assert ReplaceRuns("__") == "__";
    ReplaceRunsFront("A__");
  }

  /** No `-` or `_` is directly followed by an ASCII lower-case letter. */
  predicate NoLowerAfterDash(r: string)
  {
    forall i :: 0 <= i < |r| - 1 ==> IsDash(r[i]) ==> !AsciiLower(r[i + 1])
  }

  lemma ConsNoLowerAfterDash(c: char, rest: string)
    requires NoLowerAfterDash(rest)
    requires IsDash(c) && rest != [] ==> !AsciiLower(rest[0])
    ensures NoLowerAfterDash([c] + rest)
  {
    var r := [c] + rest;
    forall i | 0 <= i < |r| - 1 && IsDash(r[i]) ensures !AsciiLower(r[i + 1]) {
      if i > 0 {
        assert r[i] == rest[i - 1] && r[i + 1] == rest[i];
      }
    }
  }

  /** Every run of dashes the second replace leaves behind is followed by
      something other than a lower-case letter: a letter after a run is
      always upper-cased. */
  /** `_` and a character that is neither a dash nor lower-case, in front
      of a string with the property, keeps it. */
  lemma UnderscoreNoLowerAfterDash(c: char, rest: string)
    requires !AsciiLower(c) && (IsDash(c) ==> rest == [] || !AsciiLower(rest[0]))
    requires NoLowerAfterDash(rest)
    ensures NoLowerAfterDash(['_', c] + rest)
  {
    ConsNoLowerAfterDash(c, rest);
    ConsNoLowerAfterDash('_', [c] + rest);
    assert ['_', c] + rest == ['_'] + ([c] + rest);
  }

  lemma {:induction false} ReplaceRunsNoLowerAfterDash(s: string)
    ensures NoLowerAfterDash(ReplaceRuns(s))
    decreases |s|
  {
    if s != [] {
      var m := DashRun(s);
      if !IsDash(s[0]) {
        var rest := ReplaceRuns(s[1..]);
        assert ReplaceRuns(s) == [s[0]] + rest;
        ReplaceRunsNoLowerAfterDash(s[1..]);
        ConsNoLowerAfterDash(s[0], rest);
      } else if m < |s| && !IsLineTerminator(s[m]) {
        var rest := ReplaceRuns(s[m + 1..]);
        assert ReplaceRuns(s) == ['_', UpperChar(s[m])] + rest;
        ReplaceRunsNoLowerAfterDash(s[m + 1..]);
        UnderscoreNoLowerAfterDash(UpperChar(s[m]), rest);
      } else if m >= 2 {
        var rest := ReplaceRuns(s[m..]);
        assert ReplaceRuns(s) == ['_', s[m - 1]] + rest;
        ReplaceRunsNoLowerAfterDash(s[m..]);
        ReplaceRunsFront(s[m..]);
        UnderscoreNoLowerAfterDash(s[m - 1], rest);
      } else {
        var rest := ReplaceRuns(s[1..]);
        assert ReplaceRuns(s) == [s[0]] + rest;
        ReplaceRunsNoLowerAfterDash(s[1..]);
        ReplaceRunsFront(s[1..]);
        ConsNoLowerAfterDash(s[0], rest);
      }
    }
  }



  /** After `titleCase` the string does not start with a lower-case letter
      and no dash is followed by one. */
  lemma TitleCaseNoLowerAfterDash(s: string)
    ensures NoLowerAfterDash(TitleCase(s))
    ensures TitleCase(s) != [] ==> !AsciiLower(TitleCase(s)[0])
  {
    ReplaceRunsNoLowerAfterDash(CapitalizeFirst(s));
  }
}
