/** The cart page controller of assets/cart-page.js as a state machine over its
    events: minus, plus and remove clicks on a rendered line, a debounce timer
    firing, a change request settling and a cart-section re-fetch settling. Timers
    and network calls are not run: scheduling, issuing and settling are events, and
    the outcome of a request is a parameter of the event that settles it. */
module Cart {
  import opened Options
  import opened JsStrings

  /** A rendered cart line (the table row or the mobile card; both carry the item
      key): the quantity it displays and the disabled markers of its remove button
      and of its quantity controls. */
  datatype Line = Line(key: string, qty: int, removeDisabled: bool, qtyDisabled: bool)

  /** The body of a change request: `{id, quantity}`. */
  datatype Request = Request(id: string, quantity: int)

  /** A cart-section re-fetch in flight. `loaderOf` is the item whose loader stays
      shown until the re-fetch settles; `retryOnFailure` says whether its failure is
      caught and answered by one more re-fetch. */
  datatype Refetch = Refetch(loaderOf: Option<string>, retryOnFailure: bool)

  /** The controller's state. `pending` is the per-key debounce slot: the quantity a
      scheduled update will send. `sent` lists every change request issued, `posts`
      the keys whose change request has not settled, `loading` the keys the script
      last marked as loading, and `notices` counts the error notices shown. */
  datatype State = State(
    lines: seq<Line>,
    checkoutDisabled: bool,
    pending: map<string, int>,
    sent: seq<Request>,
    posts: seq<string>,
    refetches: seq<Refetch>,
    loading: set<string>,
    notices: nat)

  datatype Event =
    | Minus(line: nat)
    | Plus(line: nat)
    | Remove(line: nat)
    | Fire(key: string)
    | ChangeDone(post: nat, ok: bool)
    | RefetchDone(fetch: nat, rendered: Option<seq<Line>>)

  /** The page as first rendered: nothing scheduled, nothing in flight. */
  function Initial(lines: seq<Line>, checkoutDisabled: bool): State
  {
    State(lines, checkoutDisabled, map[], [], [], [], {}, 0)
  }

  /** The list without its j-th element; the others keep their order. */
  function RemoveAt<T>(xs: seq<T>, j: nat): (r: seq<T>)
    requires j < |xs|
    ensures |r| == |xs| - 1
    ensures forall k :: 0 <= k < j ==> r[k] == xs[k]
    ensures forall k :: j <= k < |r| ==> r[k] == xs[k + 1]
    ensures multiset(r) + multiset{xs[j]} == multiset(xs)
  {
    assert xs == xs[..j] + [xs[j]] + xs[j + 1..];
    xs[..j] + xs[j + 1..]
  }

  // ---------------------------------------------------------------------------
  // controls

  /** The two lists show the same items with the same quantities; only the disabled
      markers may differ. */
  predicate SameItems(a: seq<Line>, b: seq<Line>)
  {
    |a| == |b| && forall i :: 0 <= i < |a| ==> a[i].key == b[i].key && a[i].qty == b[i].qty
  }

  /** `disableButtons(flag)`: the checkout button, every remove button and every
      quantity control get disabled marker `flag`; nothing else changes. */
  function DisableButtons(s: State, flag: bool): (r: State)
    ensures r.checkoutDisabled == flag
    ensures SameItems(r.lines, s.lines)
    ensures forall i :: 0 <= i < |r.lines| ==>
      r.lines[i].removeDisabled == flag && r.lines[i].qtyDisabled == flag
    ensures r.pending == s.pending && r.sent == s.sent && r.posts == s.posts
    ensures r.refetches == s.refetches && r.loading == s.loading && r.notices == s.notices
  {
    var lines := seq(|s.lines|, i requires 0 <= i < |s.lines| =>
      s.lines[i].(removeDisabled := flag, qtyDisabled := flag));
    s.(lines := lines, checkoutDisabled := flag)
  }

  /** All disabled markers agree with the checkout button's. */
  predicate ControlsAgree(s: State)
  {
    forall i :: 0 <= i < |s.lines| ==>
      s.lines[i].removeDisabled == s.checkoutDisabled && s.lines[i].qtyDisabled == s.checkoutDisabled
  }

  /** The two loader element ids `setItemLoading` looks up for `key`. */
  function LoaderIds(key: string): (ids: (string, string))
    ensures ':' !in ids.0 && ':' !in ids.1
    ensures |ids.0| == |"item-loader-"| + |key| && ids.0[..|"item-loader-"|] == "item-loader-"
    ensures |ids.1| == |"item-loader-mobile-"| + |key|
      && ids.1[..|"item-loader-mobile-"|] == "item-loader-mobile-"
    ensures forall i :: 0 <= i < |key| ==>
      ids.0[|"item-loader-"| + i] == ids.1[|"item-loader-mobile-"| + i]
        == (if key[i] == ':' then '-' else key[i])
  {
    var k := ReplaceAll(key, ':', '-');
    ("item-loader-" + k, "item-loader-mobile-" + k)
  }

  /** A key without colons appears verbatim in its loader id. */
  lemma LoaderIdKeepsPlainKey(key: string)
    requires ':' !in key
    ensures LoaderIds(key).0 == "item-loader-" + key
  {
    var id := LoaderIds(key).0;
    assert id[12..] == key;
    assert id == id[..12] + id[12..];
  }

  // ---------------------------------------------------------------------------
  // events

  /** `updateCartItem(key, quantity)` up to the request leaving: the item's loader
      shows, every control is disabled, and the change request is issued. */
  function StartUpdate(s: State, key: string, quantity: int): (r: State)
    ensures r.sent == s.sent + [Request(key, quantity)]
    ensures r.posts == s.posts + [key]
    ensures r.checkoutDisabled && ControlsAgree(r)
    ensures r.loading == s.loading + {key}
    ensures r.pending == s.pending && r.refetches == s.refetches && r.notices == s.notices
    ensures |r.lines| == |s.lines| && forall i :: 0 <= i < |r.lines| ==>
      r.lines[i].key == s.lines[i].key && r.lines[i].qty == s.lines[i].qty
  {
    var d := DisableButtons(s.(loading := s.loading + {key}), true);
    d.(sent := d.sent + [Request(key, quantity)], posts := d.posts + [key])
  }

  /** Minus on a line: above 1 the display drops by one and the line's key gets a
      (re)scheduled update carrying the new quantity; at 1 or below nothing happens. */
  function MinusClick(s: State, i: nat): (r: State)
    requires i < |s.lines|
    ensures s.lines[i].qty <= 1 ==> r == s
    ensures s.lines[i].qty > 1 ==>
      r.lines == s.lines[i := s.lines[i].(qty := s.lines[i].qty - 1)]
      && r.pending == s.pending[s.lines[i].key := s.lines[i].qty - 1]
      && r.pending[s.lines[i].key] >= 1
      && r.sent == s.sent && r.checkoutDisabled == s.checkoutDisabled
      && r.posts == s.posts && r.refetches == s.refetches && r.loading == s.loading
      && r.notices == s.notices
  {
    var line := s.lines[i];
    if line.qty > 1 then
      var q := line.qty - 1;
      s.(lines := s.lines[i := line.(qty := q)], pending := s.pending[line.key := q])
    else s
  }

  /** Plus on a line: the display rises by one and the line's key gets a
      (re)scheduled update carrying the new quantity. */
  function PlusClick(s: State, i: nat): (r: State)
    requires i < |s.lines|
    ensures r.lines == s.lines[i := s.lines[i].(qty := s.lines[i].qty + 1)]
    ensures r.pending == s.pending[s.lines[i].key := s.lines[i].qty + 1]
    ensures r.sent == s.sent && r.posts == s.posts && r.checkoutDisabled == s.checkoutDisabled
    ensures r.refetches == s.refetches && r.loading == s.loading && r.notices == s.notices
  {
    var line := s.lines[i];
    var q := line.qty + 1;
    s.(lines := s.lines[i := line.(qty := q)], pending := s.pending[line.key := q])
  }

  /** Remove on a line: a no-op while its remove button is marked disabled, otherwise
      an immediate change request with quantity 0 for the line's key. A pending
      quantity update for the key is left scheduled. */
  function RemoveClick(s: State, i: nat): (r: State)
    requires i < |s.lines|
    ensures s.lines[i].removeDisabled ==> r == s
    ensures !s.lines[i].removeDisabled ==>
      r.sent == s.sent + [Request(s.lines[i].key, 0)] && r.posts == s.posts + [s.lines[i].key]
      && r.loading == s.loading + {s.lines[i].key}
      && r.checkoutDisabled && ControlsAgree(r) && SameItems(r.lines, s.lines)
      && r.pending == s.pending && r.refetches == s.refetches && r.notices == s.notices
  {
    if s.lines[i].removeDisabled then s else StartUpdate(s, s.lines[i].key, 0)
  }

  /** A debounce timer fires: its slot empties and the update it carries is issued. */
  function TimerFire(s: State, key: string): (r: State)
    requires key in s.pending
    ensures r.sent == s.sent + [Request(key, s.pending[key])]
    ensures r.posts == s.posts + [key] && r.loading == s.loading + {key}
    ensures r.pending == s.pending - {key}
    ensures r.checkoutDisabled && ControlsAgree(r) && SameItems(r.lines, s.lines)
    ensures r.refetches == s.refetches && r.notices == s.notices
  {
    StartUpdate(s.(pending := s.pending - {key}), key, s.pending[key])
  }

  /** A change request settles. Either way the cart section is re-fetched; on
      failure an error notice shows and the loader hides at once, on success the
      loader stays until the re-fetch settles. */
  function ChangeSettled(s: State, j: nat, ok: bool): (r: State)
    requires j < |s.posts|
    ensures r.posts == RemoveAt(s.posts, j)
    ensures r.refetches == s.refetches + [Refetch(if ok then Some(s.posts[j]) else None, ok)]
    ensures ok ==> r.notices == s.notices && r.loading == s.loading
    ensures !ok ==> r.notices == s.notices + 1 && r.loading == s.loading - {s.posts[j]}
    ensures r.lines == s.lines && r.checkoutDisabled == s.checkoutDisabled && r.pending == s.pending
    ensures r.sent == s.sent
  {
    var key := s.posts[j];
    var s1 := s.(posts := RemoveAt(s.posts, j));
    if ok then s1.(refetches := s1.refetches + [Refetch(Some(key), true)])
    else
      s1.(refetches := s1.refetches + [Refetch(None, false)], notices := s1.notices + 1,
          loading := s1.loading - {key})
  }

  /** The loaders left showing once the loader of `of` (if any) hides. */
  function ClearLoader(loading: set<string>, of: Option<string>): (r: set<string>)
    ensures of.Some? ==> r == loading - {of.value}
    ensures of.None? ==> r == loading
  {
    match of
    case Some(k) => loading - {k}
    case None => loading
  }

  /** A re-fetch settles. A rendered section replaces the lines; whatever the
      outcome, the controls are enabled again. A failed re-fetch on the success path
      shows an error notice and starts one more re-fetch. */
  function RefetchSettled(s: State, j: nat, rendered: Option<seq<Line>>): (r: State)
    requires j < |s.refetches|
    ensures !r.checkoutDisabled && ControlsAgree(r)
    ensures rendered.Some? ==> |r.lines| == |rendered.value| && forall i :: 0 <= i < |r.lines| ==>
      r.lines[i].key == rendered.value[i].key && r.lines[i].qty == rendered.value[i].qty
    ensures rendered.None? ==> SameItems(r.lines, s.lines)
    ensures rendered.None? && s.refetches[j].retryOnFailure ==>
      r.notices == s.notices + 1 && r.refetches == RemoveAt(s.refetches, j) + [Refetch(None, false)]
    ensures rendered.Some? || !s.refetches[j].retryOnFailure ==>
      r.notices == s.notices && r.refetches == RemoveAt(s.refetches, j)
    ensures rendered.Some? || s.refetches[j].retryOnFailure ==>
      r.loading == ClearLoader(s.loading, s.refetches[j].loaderOf)
    ensures rendered.None? && !s.refetches[j].retryOnFailure ==> r.loading == s.loading
    ensures r.sent == s.sent && r.posts == s.posts && r.pending == s.pending
  {
    var f := s.refetches[j];
    var s1 := s.(refetches := RemoveAt(s.refetches, j));
    var s2 := match rendered case Some(ls) => s1.(lines := ls) case None => s1;
    var s3 := DisableButtons(s2, false);
    if rendered.Some? || f.retryOnFailure then
      var s4 := s3.(loading := ClearLoader(s3.loading, f.loaderOf));
      if rendered.None? then
        s4.(notices := s4.notices + 1, refetches := s4.refetches + [Refetch(None, false)])
      else s4
    else s3
  }

  /** One event. An event naming a line, timer, request or re-fetch that does not
      exist changes nothing. */
  function Step(s: State, e: Event): State
  {
    match e
    case Minus(i) => if i < |s.lines| then MinusClick(s, i) else s
    case Plus(i) => if i < |s.lines| then PlusClick(s, i) else s
    case Remove(i) => if i < |s.lines| then RemoveClick(s, i) else s
    case Fire(k) => if k in s.pending then TimerFire(s, k) else s
    case ChangeDone(j, ok) => if j < |s.posts| then ChangeSettled(s, j, ok) else s
    case RefetchDone(j, rendered) => if j < |s.refetches| then RefetchSettled(s, j, rendered) else s
  }

  function Run(s: State, events: seq<Event>): State
  {
    if |events| == 0 then s else Step(Run(s, events[..|events| - 1]), events[|events| - 1])
  }

  // ---------------------------------------------------------------------------
  // properties

  /** Every event keeps the disabled markers in agreement. */
  lemma StepKeepsControlsAgree(s: State, e: Event)
    requires ControlsAgree(s)
    ensures ControlsAgree(Step(s, e))
  {
  }

  lemma {:induction false} RunKeepsControlsAgree(s: State, events: seq<Event>)
    requires ControlsAgree(s)
    ensures ControlsAgree(Run(s, events))
  {
    if |events| > 0 {
      RunKeepsControlsAgree(s, events[..|events| - 1]);
      StepKeepsControlsAgree(Run(s, events[..|events| - 1]), events[|events| - 1]);
    }
  }

  /** Displayed quantities are never negative and every scheduled update carries at
      least 1, so a debounced update never removes a line; only remove sends 0. */
  predicate QuantitiesSane(s: State)
  {
    (forall i :: 0 <= i < |s.lines| ==> s.lines[i].qty >= 0)
    && (forall k :: k in s.pending ==> s.pending[k] >= 1)
  }

  /** Every event keeps quantities sane, as long as a re-rendered section shows no
      negative quantity. */
  lemma StepKeepsQuantitiesSane(s: State, e: Event)
    requires QuantitiesSane(s)
    requires e.RefetchDone? && e.rendered.Some? ==>
      forall i :: 0 <= i < |e.rendered.value| ==> e.rendered.value[i].qty >= 0
    ensures QuantitiesSane(Step(s, e))
  {
  }

  /** A change request with quantity below 1 is only ever a remove. */
  lemma SubUnitRequestsAreRemovals(s: State, e: Event)
    requires QuantitiesSane(s)
    ensures var r := Step(s, e);
      |r.sent| >= |s.sent| && r.sent[..|s.sent|] == s.sent
      && forall j :: |s.sent| <= j < |r.sent| && r.sent[j].quantity < 1 ==>
           e.Remove? && r.sent[j].quantity == 0
  {
  }

  function Repeat(e: Event, n: nat): (es: seq<Event>)
    ensures |es| == n && forall j :: 0 <= j < n ==> es[j] == e
  {
    seq(n, _ => e)
  }

  /** Rapid plus clicks on one line coalesce: after `n` of them the line shows `n`
      more, its key holds one pending update carrying that quantity, and no request
      has left. */
  lemma {:induction false} PlusClicksCoalesce(s: State, i: nat, n: nat)
    requires i < |s.lines|
    ensures var r := Run(s, Repeat(Plus(i), n));
      |r.lines| == |s.lines| && r.lines[i].key == s.lines[i].key
      && r.lines[i].qty == s.lines[i].qty + n
      && (n > 0 ==> r.pending == s.pending[s.lines[i].key := s.lines[i].qty + n])
      && r.sent == s.sent
  {
    if n > 0 {
      var es := Repeat(Plus(i), n);
      assert es[..n - 1] == Repeat(Plus(i), n - 1);
      PlusClicksCoalesce(s, i, n - 1);
    }
  }

  /** ... and when the timer fires, exactly one request leaves, with the latest
      displayed quantity. */
  lemma PlusClicksThenFire(s: State, i: nat, n: nat)
    requires i < |s.lines| && n > 0
    ensures var r := Run(s, Repeat(Plus(i), n) + [Fire(s.lines[i].key)]);
      r.sent == s.sent + [Request(s.lines[i].key, s.lines[i].qty + n)]
      && s.lines[i].key !in r.pending
  {
    var key, es := s.lines[i].key, Repeat(Plus(i), n);
    PlusClicksCoalesce(s, i, n);
    var mid := Run(s, es);
    assert mid.sent == s.sent && mid.pending == s.pending[key := s.lines[i].qty + n];
    RunThenFire(s, es, key);
  }

  /** A run ending in the timer of a scheduled key sends that key's quantity and
      empties its slot. */
  lemma RunThenFire(s: State, es: seq<Event>, key: string)
    requires key in Run(s, es).pending
    ensures var mid, r := Run(s, es), Run(s, es + [Fire(key)]);
      r.sent == mid.sent + [Request(key, mid.pending[key])] && key !in r.pending
  {
    assert (es + [Fire(key)])[..|es|] == es;
  }

  /** A click on one key leaves every other key's pending update alone. */
  lemma ClicksTouchOnlyTheirKey(s: State, e: Event, k: string)
    requires e.Minus? || e.Plus?
    requires e.line < |s.lines| && s.lines[e.line].key != k
    ensures k in Step(s, e).pending <==> k in s.pending
    ensures k in s.pending ==> Step(s, e).pending[k] == s.pending[k]
  {
  }

  /** A failed change request still re-syncs the cart: once its re-fetch renders, the
      lines are the server's. */
  lemma FailedChangeStillResyncs(s: State, j: nat, rendered: seq<Line>)
    requires j < |s.posts|
    ensures var r1 := ChangeSettled(s, j, false);
      var r2 := RefetchSettled(r1, |r1.refetches| - 1, Some(rendered));
      |r2.lines| == |rendered|
      && (forall i :: 0 <= i < |rendered| ==> r2.lines[i].key == rendered[i].key && r2.lines[i].qty == rendered[i].qty)
      && !r2.checkoutDisabled && r2.notices == s.notices + 1
  {
  }

  /** The controls are not held disabled for the whole of overlapping updates. Plus
      clicks do not look at the disabled markers, so a second update can start while
      the first is in flight, and the first re-fetch to settle then enables the
      controls while the second change request has not settled. */
  lemma OverlappingUpdatesReenableEarly(lines: seq<Line>)
    requires |lines| >= 1
    ensures var k := lines[0].key;
      var s := Run(Initial(lines, false),
        [Plus(0), Fire(k), Plus(0), Fire(k), ChangeDone(0, true), RefetchDone(0, None)]);
      |s.posts| == 1 && !s.checkoutDisabled
  {
    var k := lines[0].key;
    var es := [Plus(0), Fire(k), Plus(0), Fire(k), ChangeDone(0, true), RefetchDone(0, None)];
    var s0 := Initial(lines, false);
    forall m | 1 <= m <= 6 ensures es[..m][..m - 1] == es[..m - 1] {}
    assert Run(s0, es[..0]) == s0;
    var s1 := Step(s0, es[0]);
    assert Run(s0, es[..1]) == s1;
    var s2 := Step(s1, es[1]);
    assert Run(s0, es[..2]) == s2;
    var s3 := Step(s2, es[2]);
    assert Run(s0, es[..3]) == s3;
    var s4 := Step(s3, es[3]);
    assert Run(s0, es[..4]) == s4;
    assert |s4.posts| == 2;
    var s5 := Step(s4, es[4]);
    assert Run(s0, es[..5]) == s5;
    assert |s5.posts| == 1 && |s5.refetches| == 1;
    assert es[..6] == es;
  }
}
