/** The backward window loop of the Monobank statement backfill. */
module Backfill {
  import opened Common

  const CHUNK_SECONDS: int := 2_678_400

  /** One inclusive statement request. */
  datatype Window = Window(from: int, upTo: int)

  /** What the bank API answers to one request: statement items, or one of its errors. */
  datatype Response = Statements(items: seq<int>) | OutOfBounds | Unauthorized | OtherError

  datatype Outcome = Completed | Failed

  function Max(a: int, b: int): int { if a >= b then a else b }

  /** The windows an undisturbed run requests, latest first. */
  function Windows(from: int, upTo: int): seq<Window>
    decreases upTo - from
  {
    if upTo <= from then []
    else
      var start := Max(from, upTo - CHUNK_SECONDS);
      [Window(start, upTo)] + Windows(from, start - 1)
  }

  /** The bank's answer to the k-th request of a run. */
  function Answer(api: seq<Response>, k: nat): Response {
    if k < |api| then api[k] else Statements([])
  }

  /** A run of `total` windows stops after request number n: at the first answer that is an error, or at the end. */
  ghost predicate StopsAfter(api: seq<Response>, total: nat, n: nat) {
    && n <= total
    && (forall k: nat :: k + 1 < n ==> Answer(api, k).Statements?)
    && (n < total ==> n > 0 && !Answer(api, n - 1).Statements?)
  }

  /** Everything fetched by the first n requests, in request order. */
  function Items(api: seq<Response>, n: nat): seq<int> {
    if n == 0 then []
    else
      var r := Answer(api, n - 1);
      Items(api, n - 1) + (if r.Statements? then r.items else [])
  }

  class MonobankBackfillProvider {
    var requests: seq<Window>
    var produced: seq<int>
    var integrationInError: bool

    /** Fetches backwards from `to`, publishing every item; "out of bounds" ends the run quietly, a
        rejected token marks the integration and fails, any other error fails. */
    method RunBackfill(from: int, upTo: int, api: seq<Response>) returns (outcome: Outcome, ghost n: nat)
      modifies this
      ensures StopsAfter(api, |Windows(from, upTo)|, n)
      ensures requests == old(requests) + Windows(from, upTo)[..n]
      ensures produced == old(produced) + Items(api, n)
      ensures outcome == Completed <==> n == 0 || Answer(api, n - 1).Statements? || Answer(api, n - 1).OutOfBounds?
      ensures integrationInError == (old(integrationInError) || (n > 0 && Answer(api, n - 1).Unauthorized?))
    {
      var currentTo := upTo;
      ghost var ws := Windows(from, upTo);
      var calls := 0;
      n := 0;
      while currentTo > from
        invariant n == calls <= |ws| && ws[n..] == Windows(from, currentTo)
        invariant requests == old(requests) + ws[..n]
        invariant produced == old(produced) + Items(api, n)
        invariant forall k: nat :: k < n ==> Answer(api, k).Statements?
        invariant integrationInError == old(integrationInError)
        decreases currentTo - from
      {
        var currentFrom := Max(from, currentTo - CHUNK_SECONDS);
        assert ws[n] == ws[n..][0] && ws[n + 1..] == ws[n..][1..] && ws[..n + 1] == ws[..n] + [ws[n]];
        requests := requests + [Window(currentFrom, currentTo)];
        var response := Answer(api, calls);
        calls, n := calls + 1, n + 1;
        if response.OutOfBounds? {
          outcome := Completed;
          return;
        }
        if response.Unauthorized? {
          integrationInError := true;
          outcome := Failed;
          return;
        }
        if response.OtherError? {
          outcome := Failed;
          return;
        }
        produced := produced + response.items;
        currentTo := currentFrom - 1;
      }
      outcome := Completed;
    }
  }

  /** Each window ends right before the one requested before it begins; none is longer than the chunk. */
  lemma {:induction false} WindowsDescendAndAbut(from: int, upTo: int)
    ensures forall i :: 0 <= i < |Windows(from, upTo)| ==>
              from <= Windows(from, upTo)[i].from <= Windows(from, upTo)[i].upTo <= upTo
              && Windows(from, upTo)[i].upTo - Windows(from, upTo)[i].from <= CHUNK_SECONDS
    ensures forall i, j :: 0 <= i < j < |Windows(from, upTo)| ==>
            Windows(from, upTo)[j].upTo < Windows(from, upTo)[i].from
    ensures forall i, j :: 0 <= i && j == i + 1 && j < |Windows(from, upTo)| ==>
              Windows(from, upTo)[j].upTo == Windows(from, upTo)[i].from - 1
    ensures Windows(from, upTo) != [] ==> Windows(from, upTo)[0].upTo == upTo
    decreases upTo - from
  {
    if upTo > from {
      var start := Max(from, upTo - CHUNK_SECONDS);
      WindowsDescendAndAbut(from, start - 1);
      var ws, rest := Windows(from, upTo), Windows(from, start - 1);
      assert forall i :: 1 <= i < |ws| ==> ws[i] == rest[i - 1];
    }
  }

  function CeilDiv(a: nat, b: nat): nat
    requires b > 0
  {
    (a + b - 1) / b
  }

  /** An undisturbed run makes ceil((to - from) / (chunk + 1)) requests. */
  lemma {:induction false} WindowCount(from: int, upTo: int)
    requires from < upTo
    ensures |Windows(from, upTo)| == CeilDiv(upTo - from, 31 * 24 * 3600 + 1)
    decreases upTo - from
  {
    var start := Max(from, upTo - CHUNK_SECONDS);
    if start - 1 > from { WindowCount(from, start - 1); }
  }

  ghost predicate Covered(ws: seq<Window>, t: int) {
    exists i :: 0 <= i < |ws| && ws[i].from <= t <= ws[i].upTo
  }

  /** Which seconds an undisturbed run covers: all of [from, upTo], except `from` itself when the span is a
      whole number of chunk-plus-one steps. */
  lemma {:induction false} CoverageIff(from: int, upTo: int, t: int)
    requires from < upTo && from <= t <= upTo
    ensures Covered(Windows(from, upTo), t) <==> !(t == from && (upTo - from) % (31 * 24 * 3600 + 1) == 0)
    decreases upTo - from
  {
    var start := Max(from, upTo - CHUNK_SECONDS);
    var ws, rest := Windows(from, upTo), Windows(from, start - 1);
    assert ws[0] == Window(start, upTo);
    assert forall i :: 1 <= i < |ws| ==> ws[i] == rest[i - 1];
    assert forall i :: 0 <= i < |rest| ==> rest[i] == ws[i + 1];
    assert Covered(ws, t) <==> start <= t || Covered(rest, t);
    if t < start {
      if start - 1 > from {
        CoverageIff(from, start - 1, t);
        assert upTo - from == (start - 1 - from) + (CHUNK_SECONDS + 1);
      } else {
        assert rest == [] && t == from && upTo - from == CHUNK_SECONDS + 1;
      }
    } else if t == from {
      assert start == from && upTo - from <= CHUNK_SECONDS;
    }
  }
}
