/**
 * The retry loop of `make_request`, driven by a finite script of what each
 * GET attempt does in place of the HTTP session.
 */
module Fetcher {

  /** What one `session.get` attempt does: answers with a status and a body, times out, or cannot connect. */
  datatype Outcome<T> = Response(status: int, body: T) | Timeout | ConnectionError

  /**
   * How the loop ends: with the body of a 200 answer, by exhausting the retry
   * budget (the function then returns `None`), or still running when the
   * script has no further attempt (the source would issue another GET).
   */
  datatype RequestResult<T> = Fetched(body: T) | GaveUp | Pending

  /** The retry budget `fetch_data` passes, `MAX_RETRIES`. */
  const MaxRetries := 5

  predicate Succeeds<T>(o: Outcome<T>) {
    o.Response? && o.status == 200
  }

  /** A non-200 answer or a timeout costs one retry; a connection error costs none. */
  predicate Consumes<T>(o: Outcome<T>) {
    o.Timeout? || (o.Response? && o.status != 200)
  }

  predicate NoSuccess<T>(s: seq<Outcome<T>>) {
    forall j :: 0 <= j < |s| ==> !Succeeds(s[j])
  }

  /** The number of attempts in `s` that cost a retry. */
  function ConsumedCount<T>(s: seq<Outcome<T>>): nat
    decreases |s|
  {
    if |s| == 0 then 0 else (if Consumes(s[0]) then 1 else 0) + ConsumedCount(s[1..])
  }

  /**
   * The loop `while retries > 0: ...` as a function of the script: the result
   * and the number of attempts made, never more than the script holds.
   */
  function Run<T>(outcomes: seq<Outcome<T>>, retries: int): (r: (RequestResult<T>, nat))
    ensures r.1 <= |outcomes|
    ensures r.0.Fetched? ==> r.1 > 0 && Succeeds(outcomes[r.1 - 1]) && r.0.body == outcomes[r.1 - 1].body
    decreases |outcomes|
  {
    if retries <= 0 then (GaveUp, 0)
    else if |outcomes| == 0 then (Pending, 0)
    else
      var o := outcomes[0];
      if Succeeds(o) then (Fetched(o.body), 1)
      else
        var next := Run(outcomes[1..], if Consumes(o) then retries - 1 else retries);
        (next.0, next.1 + 1)
  }

  /** Prefixes of a script seen from its second attempt on. */
  lemma PrefixTail<T>(o: seq<Outcome<T>>, i: nat)
    requires 0 < i <= |o|
    ensures o[..i][1..] == o[1..][..i - 1]
    ensures ConsumedCount(o[..i]) == (if Consumes(o[0]) then 1 else 0) + ConsumedCount(o[1..][..i - 1])
    ensures NoSuccess(o[..i]) <==> !Succeeds(o[0]) && NoSuccess(o[1..][..i - 1])
  {
    var head, tail := o[..i], o[1..][..i - 1];
    assert head[1..] == tail;
    assert head[0] == o[0];
    if NoSuccess(head) {
      forall j | 0 <= j < |tail| ensures !Succeeds(tail[j]) {
        assert tail[j] == head[j + 1];
      }
    }
    if !Succeeds(o[0]) && NoSuccess(tail) {
      forall j | 0 <= j < |head| ensures !Succeeds(head[j]) {
        if j > 0 { assert head[j] == tail[j - 1]; }
      }
    }
  }

  /**
   * What every run looks like: the attempts made are a prefix of the script;
   * a fetched body comes from the first 200 answer, reached with budget left;
   * giving up means the failures that cost a retry used the whole budget
   * with no 200 answer; a pending run used the whole script with budget left.
   */
  lemma {:induction false} RunShape<T>(o: seq<Outcome<T>>, retries: int)
    ensures var (res, n) := Run(o, retries);
      && (res.Fetched? ==> NoSuccess(o[..n - 1]) && ConsumedCount(o[..n - 1]) < retries)
      && (res.GaveUp? ==> NoSuccess(o[..n]) && ConsumedCount(o[..n]) == (if retries > 0 then retries else 0))
      && (res.Pending? ==> retries > 0 && n == |o| && NoSuccess(o) && ConsumedCount(o) < retries)
      && (retries <= 0 ==> res.GaveUp? && n == 0)
    decreases |o|
  {
    var (res, n) := Run(o, retries);
    if retries <= 0 {
      assert o[..0] == [];
    } else if |o| == 0 {
    } else if Succeeds(o[0]) {
      assert o[..0] == [];
    } else {
      var left := if Consumes(o[0]) then retries - 1 else retries;
      RunShape(o[1..], left);
      assert n == Run(o[1..], left).1 + 1;
      PrefixTail(o, n);
      if res.Fetched? {
        PrefixTail(o, n - 1);
      }
      if res.Pending? {
        assert o[..|o|] == o;
        assert o[1..][..|o| - 1] == o[1..];
      }
    }
  }

  /** Converse for success: the first 200 answer, reached with budget left, is returned. */
  lemma {:induction false} RunSucceedsAt<T>(o: seq<Outcome<T>>, retries: int, i: nat)
    requires i < |o| && Succeeds(o[i]) && NoSuccess(o[..i]) && ConsumedCount(o[..i]) < retries
    ensures Run(o, retries) == (Fetched(o[i].body), i + 1)
    decreases i
  {
    if i > 0 {
      PrefixTail(o, i);
      RunSucceedsAt(o[1..], if Consumes(o[0]) then retries - 1 else retries, i - 1);
    }
  }

  /** Converse for exhaustion: the attempt that spends the last retry ends the loop with nothing. */
  lemma {:induction false} RunGivesUpAt<T>(o: seq<Outcome<T>>, retries: int, i: nat)
    requires retries > 0 && i < |o| && Consumes(o[i])
    requires NoSuccess(o[..i + 1]) && ConsumedCount(o[..i + 1]) == retries
    ensures Run(o, retries) == (GaveUp, i + 1)
    decreases i
  {
    PrefixTail(o, i + 1);
    if i == 0 {
      assert o[1..][..0] == [];
    } else {
      var left := if Consumes(o[0]) then retries - 1 else retries;
      if left <= 0 {
        // Only a consuming first attempt can bring the budget to 0, and `o[i]` consumes too.
        ConsumedTwo(o[..i + 1], i);
      }
      RunGivesUpAt(o[1..], left, i - 1);
    }
  }

  /** Two consuming attempts at positions 0 and `i` count at least twice. */
  lemma ConsumedTwo<T>(s: seq<Outcome<T>>, i: nat)
    requires 0 < i < |s| && Consumes(s[0]) && Consumes(s[i])
    ensures ConsumedCount(s) >= 2
  {
    ConsumedAtLeastOne(s[1..], i - 1);
  }

  lemma {:induction false} ConsumedAtLeastOne<T>(s: seq<Outcome<T>>, i: nat)
    requires i < |s| && Consumes(s[i])
    ensures ConsumedCount(s) >= 1
    decreases i
  {
    if i > 0 {
      ConsumedAtLeastOne(s[1..], i - 1);
    }
  }

  /** Converse for a pending run: no 200 answer and budget left at the end of the script. */
  lemma {:induction false} RunPendingAll<T>(o: seq<Outcome<T>>, retries: int)
    requires retries > 0 && NoSuccess(o) && ConsumedCount(o) < retries
    ensures Run(o, retries) == (Pending, |o|)
    decreases |o|
  {
    if |o| > 0 {
      var left := if Consumes(o[0]) then retries - 1 else retries;
      assert NoSuccess(o[1..]) by {
        forall j | 0 <= j < |o[1..]| ensures !Succeeds(o[1..][j]) { assert o[1..][j] == o[j + 1]; }
      }
      RunPendingAll(o[1..], left);
    }
  }

  /**
   * Connection errors never spend the budget: a server that only refuses
   * connections keeps the loop going for as long as the script lasts.
   */
  lemma {:induction false} ConnectionErrorsNeverGiveUp<T>(o: seq<Outcome<T>>, retries: int)
    requires retries > 0
    requires forall j :: 0 <= j < |o| ==> o[j] == ConnectionError
    ensures Run(o, retries) == (Pending, |o|)
    decreases |o|
  {
    if |o| > 0 {
      ConnectionErrorsNeverGiveUp(o[1..], retries);
    }
  }

  /** Without connection errors, a script as long as the budget always ends the loop within it. */
  lemma {:induction false} NoConnectionErrorsTerminate<T>(o: seq<Outcome<T>>, retries: int)
    requires forall j :: 0 <= j < |o| ==> !o[j].ConnectionError?
    requires |o| >= retries
    ensures !Run(o, retries).0.Pending?
    ensures Run(o, retries).1 <= (if retries > 0 then retries else 0)
    decreases |o|
  {
    if retries > 0 && |o| > 0 && !Succeeds(o[0]) {
      NoConnectionErrorsTerminate(o[1..], retries - 1);
    }
  }
}
