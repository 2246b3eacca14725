/**
 * The writer: `get_unique_filename` picks the first free output name, and
 * `save_to_file` writes the dict items sorted descending by `(count, percentage)`.
 */
module Writer {
  import Decimal
  import opened Extraction

  // ------------------------------------------------------------ file name

  /** `f"{base}_files{'_' + str(n) if n > 1 else ''}.json"`. */
  function FileName(base: string, n: nat): (name: string)
    requires n >= 1
    ensures base + "_files" <= name
    ensures |name| >= |base| + 11 && name[|name| - 5..] == ".json"
    ensures n == 1 <==> |name| == |base| + 11
  {
    base + "_files" + (if n > 1 then "_" + Decimal.NatToDecimal(n) else "") + ".json"
  }

  /** Different probe numbers give different names, so the probing never revisits a name. */
  lemma FileNameInjective(base: string, n: nat, m: nat)
    requires n >= 1 && m >= 1
    ensures FileName(base, n) == FileName(base, m) ==> n == m
  {
    var stem := base + "_files";
    if FileName(base, n) == FileName(base, m) && n > 1 && m > 1 {
      var dn, dm := Decimal.NatToDecimal(n), Decimal.NatToDecimal(m);
      assert FileName(base, n) == stem + "_" + dn + ".json";
      assert |dn| == |dm|;
      assert dn == FileName(base, n)[|stem| + 1..|stem| + 1 + |dn|];
      assert dm == FileName(base, m)[|stem| + 1..|stem| + 1 + |dm|];
      Decimal.DecimalInjective(n, m);
    }
  }

  /**
   * `get_unique_filename`, with the files on disk given as the finite set
   * `existing`: the name for the least `n >= 1` that is not taken.
   */
  method UniqueFilename(base: string, existing: set<string>) returns (name: string, ghost n: nat)
    ensures n >= 1 && name == FileName(base, n)
    ensures name !in existing
    ensures forall k :: 1 <= k < n ==> FileName(base, k) in existing
  {
    var fileNumber := 1;
    name := FileName(base, fileNumber);
    ghost var probed: set<string> := {};
    while name in existing
      invariant fileNumber >= 1 && name == FileName(base, fileNumber)
      invariant forall k :: 1 <= k < fileNumber ==> FileName(base, k) in existing
      invariant probed <= existing
      invariant forall x :: x in probed ==> exists k :: 1 <= k < fileNumber && FileName(base, k) == x
      decreases existing - probed
    {
      forall k | 1 <= k < fileNumber ensures FileName(base, k) != name {
        FileNameInjective(base, k, fileNumber);
      }
      probed := probed + {name};
      fileNumber := fileNumber + 1;
      name := FileName(base, fileNumber);
    }
    n := fileNumber;
  }

  // ----------------------------------------------------------------- sort

  /** `(a.count, a.percentage) <= (b.count, b.percentage)` as Python compares tuples. */
  predicate KeyLe(a: Suggestion, b: Suggestion) {
    a.count < b.count || (a.count == b.count && a.percentage <= b.percentage)
  }

  /** Non-increasing in the sort key. */
  predicate SortedDesc(s: seq<Entry>) {
    forall i, j :: 0 <= i < j < |s| ==> KeyLe(s[j].1, s[i].1)
  }

  /** Inserts `x` before the first entry whose key is not above its own. */
  function InsertDesc(x: Entry, t: seq<Entry>): (r: seq<Entry>)
    ensures multiset(r) == multiset(t) + multiset{x}
    decreases |t|
  {
    if |t| == 0 then [x]
    else if KeyLe(t[0].1, x.1) then [x] + t
    else
      assert t == [t[0]] + t[1..];
      [t[0]] + InsertDesc(x, t[1..])
  }

  /**
   * What `save_to_file` serialises:
   * `sorted(data.items(), key=lambda x: (x[1]["count"], x[1]["percentage"]), reverse=True)`.
   */
  function SortDesc(s: seq<Entry>): (r: seq<Entry>)
    ensures multiset(r) == multiset(s)
    decreases |s|
  {
    if |s| == 0 then []
    else
      assert s == [s[0]] + s[1..];
      InsertDesc(s[0], SortDesc(s[1..]))
  }

  /** The entries whose key equals `v`, in order. Equal keys means equal suggestions. */
  function WithKey(s: seq<Entry>, v: Suggestion): seq<Entry>
    decreases |s|
  {
    if |s| == 0 then [] else (if s[0].1 == v then [s[0]] else []) + WithKey(s[1..], v)
  }

  /** A head no lower than the first entry of a sorted tail keeps the whole sorted. */
  lemma ConsSorted(h: Entry, r: seq<Entry>)
    requires SortedDesc(r) && (|r| > 0 ==> KeyLe(r[0].1, h.1))
    ensures SortedDesc([h] + r)
  {
    var s := [h] + r;
    forall i, j | 0 <= i < j < |s| ensures KeyLe(s[j].1, s[i].1) {
      assert s[j] == r[j - 1];
      if i > 0 { assert s[i] == r[i - 1]; } else { assert KeyLe(r[j - 1].1, r[0].1) || j == 1; }
    }
  }

  /** Inserting keeps the tail sorted and adds exactly `x`. */
  lemma {:induction false} InsertDescSpec(x: Entry, t: seq<Entry>)
    requires SortedDesc(t)
    ensures SortedDesc(InsertDesc(x, t))
    ensures multiset(InsertDesc(x, t)) == multiset(t) + multiset{x}
    ensures InsertDesc(x, t)[0] == x || (|t| > 0 && InsertDesc(x, t)[0] == t[0])
    decreases |t|
  {
    if |t| == 0 {
    } else if KeyLe(t[0].1, x.1) {
      ConsSorted(x, t);
    } else {
      var tail := t[1..];
      assert SortedDesc(tail) by {
        forall i, j | 0 <= i < j < |tail| ensures KeyLe(tail[j].1, tail[i].1) {
          assert tail[i] == t[i + 1] && tail[j] == t[j + 1];
        }
      }
      InsertDescSpec(x, tail);
      assert |tail| > 0 ==> KeyLe(tail[0].1, t[0].1) by {
        if |tail| > 0 { assert tail[0] == t[1]; }
      }
      ConsSorted(t[0], InsertDesc(x, tail));
      assert t == [t[0]] + tail;
    }
  }

  /** The output is ordered best first and is a permutation of the dict's items. */
  lemma {:induction false} SortDescSpec(s: seq<Entry>)
    ensures SortedDesc(SortDesc(s))
    ensures multiset(SortDesc(s)) == multiset(s)
    decreases |s|
  {
    if |s| > 0 {
      SortDescSpec(s[1..]);
      InsertDescSpec(s[0], SortDesc(s[1..]));
      assert s == [s[0]] + s[1..];
    }
  }

  lemma {:induction false} InsertDescStable(x: Entry, t: seq<Entry>, v: Suggestion)
    ensures WithKey(InsertDesc(x, t), v) == (if x.1 == v then [x] else []) + WithKey(t, v)
    decreases |t|
  {
    if |t| > 0 {
      if KeyLe(t[0].1, x.1) {
        assert ([x] + t)[1..] == t;
      } else {
        var rest := InsertDesc(x, t[1..]);
        InsertDescStable(x, t[1..], v);
        var r := [t[0]] + rest;
        assert InsertDesc(x, t) == r;
        assert r[0] == t[0] && r[1..] == rest;
        assert WithKey(r, v) == (if t[0].1 == v then [t[0]] else []) + WithKey(rest, v);
        assert WithKey(t, v) == (if t[0].1 == v then [t[0]] else []) + WithKey(t[1..], v);
      }
    }
  }

  /** Stability: entries with equal keys keep the order they had in the dict. */
  lemma {:induction false} SortDescStable(s: seq<Entry>, v: Suggestion)
    ensures WithKey(SortDesc(s), v) == WithKey(s, v)
    decreases |s|
  {
    if |s| > 0 {
      SortDescStable(s[1..], v);
      InsertDescStable(s[0], SortDesc(s[1..]), v);
    }
  }

  /** Count first, percentage as the tie-break: (2, 50), (5, 10), (5, 90) come out as (5, 90), (5, 10), (2, 50). */
  lemma SortExample()
    ensures SortDesc([("A", Suggestion(2, 50)), ("B", Suggestion(5, 10)), ("C", Suggestion(5, 90))])
      == [("C", Suggestion(5, 90)), ("B", Suggestion(5, 10)), ("A", Suggestion(2, 50))]
  {
    var a, b, c := ("A", Suggestion(2, 50)), ("B", Suggestion(5, 10)), ("C", Suggestion(5, 90));
    assert SortDesc([c]) == [c] by {
      assert [c][1..] == [];
    }
    assert SortDesc([b, c]) == [c, b] by {
      assert [b, c][1..] == [c];
      assert InsertDesc(b, [c]) == [c, b];
    }
    assert InsertDesc(a, [c, b]) == [c, b, a] by {
      assert [c, b][1..] == [b] && [b][1..] == [];
      assert InsertDesc(a, [b]) == [b, a];
    }
    assert [a, b, c][1..] == [b, c];
  }
}
