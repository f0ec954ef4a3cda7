/** String pieces the SQL builders in apiserver/db.py are made of:
    `", ".join(...)`, `("%s, " * n)[:-2]` and Python's `s[:-k]`. */
module SqlText {

  /** `sep.join(parts)`. */
  function Join(parts: seq<string>, sep: string): string
  {
    if |parts| == 0 then ""
    else if |parts| == 1 then parts[0]
    else parts[0] + sep + Join(parts[1..], sep)
  }

  /** `s * n`. */
  function Repeat(s: string, n: nat): string
  {
    if n == 0 then "" else s + Repeat(s, n - 1)
  }

  /** Python's `s[:-k]` for k >= 1: everything but the last k characters,
      and the empty string when s is shorter than k. */
  function DropLast(s: string, k: nat): (r: string)
    ensures |s| >= k ==> s == r + s[|s| - k..]
    ensures |s| < k ==> r == ""
  {
    if |s| >= k then s[..|s| - k] else ""
  }

  /** How many times `c` occurs in `s`. */
  function CountChar(s: string, c: char): nat
  {
    multiset(s)[c]
  }

  lemma CountCharAppend(a: string, b: string, c: char)
    ensures CountChar(a + b, c) == CountChar(a, c) + CountChar(b, c)
  {
  }

  /** Appending one more part to a join adds one separator. */
  lemma {:induction false} JoinSnoc(parts: seq<string>, x: string, sep: string)
    requires parts != []
    ensures Join(parts + [x], sep) == Join(parts, sep) + sep + x
  {
    if |parts| > 1 {
      assert (parts + [x])[1..] == parts[1..] + [x];
      JoinSnoc(parts[1..], x, sep);
    }
  }

  /** The positional placeholder list `("%s, " * n)[:-2]`. */
  function Placeholders(n: nat): string
  {
    DropLast(Repeat("%s, ", n), 2)
  }

  lemma {:induction false} RepeatLength(s: string, n: nat)
    ensures |Repeat(s, n)| == n * |s|
  {
    if n > 0 { RepeatLength(s, n - 1); }
  }

  /** Peeling one `"%s, "` off the front of the placeholder list. */
  lemma PlaceholdersStep(n: nat)
    requires n >= 1
    ensures Placeholders(n + 1) == "%s, " + Placeholders(n)
  {
    RepeatLength("%s, ", n);
    var rest := Repeat("%s, ", n);
    assert Repeat("%s, ", n + 1) == "%s, " + rest;
    assert ("%s, " + rest)[..|"%s, " + rest| - 2] == "%s, " + rest[..|rest| - 2];
  }

  /** The trimmed repetition is exactly n `%s` placeholders joined by `", "`. */
  lemma {:induction false} PlaceholdersAreJoined(n: nat)
    ensures Placeholders(n) == Join(seq(n, _ => "%s"), ", ")
  {
    if n == 1 {
      assert Repeat("%s, ", 1) == "%s, ";
    } else if n > 1 {
      PlaceholdersAreJoined(n - 1);
      PlaceholdersStep(n - 1);
      assert seq(n, _ => "%s")[1..] == seq(n - 1, _ => "%s");
    }
  }

  /** Characters counted in a join: one separator between each pair of parts. */
  lemma {:induction false} CountCharJoin(parts: seq<string>, sep: string, c: char)
    requires forall i :: 0 <= i < |parts| ==> CountChar(parts[i], c) == 0
    requires CountChar(sep, c) == 1
    ensures CountChar(Join(parts, sep), c) == if parts == [] then 0 else |parts| - 1
  {
    if |parts| > 1 {
      CountCharJoin(parts[1..], sep, c);
    }
  }

  /** A placeholder list for n values holds n `%` markers and n - 1 commas. */
  lemma PlaceholderCounts(n: nat)
    ensures CountChar(Placeholders(n), '%') == n
    ensures CountChar(Placeholders(n), ',') == if n == 0 then 0 else n - 1
    ensures n == 0 <==> Placeholders(n) == ""
  {
    PlaceholdersAreJoined(n);
    var parts := seq(n, _ => "%s");
    CountCharJoin(parts, ", ", ',');
    if n > 0 {
      PercentInJoin(parts);
    }
  }

  lemma {:induction false} PercentInJoin(parts: seq<string>)
    requires |parts| > 0
    requires forall i :: 0 <= i < |parts| ==> parts[i] == "%s"
    ensures CountChar(Join(parts, ", "), '%') == |parts|
  {
    if |parts| > 1 {
      PercentInJoin(parts[1..]);
    } else {
      assert Join(parts, ", ") == "%s";
    }
  }
  // The `%` markers in the fixed pieces of a WHERE clause, one literal at a time.

  lemma ContainsOperatorPercent()
    ensures CountChar(" @> %s", '%') == 1
  {
    assert multiset(" @> %s")['%'] == 1;
  }

  lemma AtLeastOperatorPercent()
    ensures CountChar(" >= %s", '%') == 1
  {
    assert multiset(" >= %s")['%'] == 1;
  }

  lemma AtMostOperatorPercent()
    ensures CountChar(" <= %s", '%') == 1
  {
    assert multiset(" <= %s")['%'] == 1;
  }

  lemma InOpenerNoPercent()
    ensures CountChar(" IN (", '%') == 0
  {
    assert multiset(" IN (")['%'] == 0;
  }

  lemma AndNoPercent()
    ensures CountChar(" AND ", '%') == 0
  {
    assert multiset(" AND ")['%'] == 0;
  }

  lemma WhereNoPercent()
    ensures CountChar("WHERE ", '%') == 0
  {
    assert multiset("WHERE ")['%'] == 0;
  }
}
