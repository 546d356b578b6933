/** Small shared vocabulary: optional values, handler outcomes, and the two
    query shapes the application uses (`.first()` and `.all()` over a filter). */
module Base {

  datatype Option<T> = None | Some(value: T)

  /** The ways a request handler refuses a request. Each one ends in a
      flashed message and a redirect, or in an HTTP error page. */
  datatype Failure =
    | BadRequest          // a required form field is absent (request.form[key] raises, Flask answers 400)
    | DuplicateEmail      // 'Email already registered as student/teacher.'
    | InvalidCredentials  // 'Invalid email or password.'
    | NotLoggedIn         // 'Please login as student/teacher.'
    | UserNotFound        // 'Student not found.' / 'Teacher not found.'
    | MissingSessionKey   // session['user_id'] raises KeyError

  datatype Result<T> = Ok(value: T) | Err(failure: Failure)

  /** Index of the first element satisfying `p`, as `query.filter_by(...).first()` finds it. */
  function FirstWhere<T>(xs: seq<T>, p: T -> bool): (r: Option<nat>)
    ensures r.Some? ==> r.value < |xs| && p(xs[r.value])
    ensures r.Some? ==> forall j :: 0 <= j < r.value ==> !p(xs[j])
    ensures r.None? <==> forall j :: 0 <= j < |xs| ==> !p(xs[j])
  {
    if xs == [] then None
    else if p(xs[0]) then Some(0)
    else match FirstWhere(xs[1..], p)
      case None => None
      case Some(i) => Some(i + 1)
  }

  /** The elements satisfying `p`, in their original order, as `query.filter_by(...).all()` returns them. */
  function Filter<T>(xs: seq<T>, p: T -> bool): (r: seq<T>)
    ensures |r| <= |xs|
    ensures forall i :: 0 <= i < |r| ==> r[i] in xs && p(r[i])
    ensures forall i :: 0 <= i < |xs| && p(xs[i]) ==> xs[i] in r
  {
    if xs == [] then []
    else
      var rest := Filter(xs[..|xs| - 1], p);
      assert xs == xs[..|xs| - 1] + [xs[|xs| - 1]];
      if p(xs[|xs| - 1]) then rest + [xs[|xs| - 1]] else rest
  }

  /** `Filter` keeps each satisfying element as often as it occurs in `xs`
      and drops every other one: nothing is repeated or lost. */
  lemma {:induction false} FilterCounts<T>(xs: seq<T>, p: T -> bool)
    ensures forall x :: multiset(Filter(xs, p))[x] == if p(x) then multiset(xs)[x] else 0
  {
    if xs != [] {
      var init, last := xs[..|xs| - 1], xs[|xs| - 1];
      FilterCounts(init, p);
      assert xs == init + [last];
      assert multiset(xs) == multiset(init) + multiset{last};
    }
  }

  /** Filtering distributes over concatenation: rows appended later are filtered on their own. */
  lemma {:induction false} FilterAppend<T>(xs: seq<T>, ys: seq<T>, p: T -> bool)
    ensures Filter(xs + ys, p) == Filter(xs, p) + Filter(ys, p)
  {
    if ys == [] {
      assert xs + ys == xs;
    } else {
      var init := ys[..|ys| - 1];
      assert (xs + ys)[..|xs + ys| - 1] == xs + init;
      assert (xs + ys)[|xs + ys| - 1] == ys[|ys| - 1];
      FilterAppend(xs, init, p);
    }
  }

  /** A sequence with no element satisfying `p` filters to nothing. */
  lemma {:induction false} FilterNone<T>(xs: seq<T>, p: T -> bool)
    requires forall j :: 0 <= j < |xs| ==> !p(xs[j])
    ensures Filter(xs, p) == []
  {
    if xs != [] {
      FilterNone(xs[..|xs| - 1], p);
    }
  }

  /** A sequence whose only element satisfying `p` is `xs[k]` filters to `[xs[k]]`. */
  lemma {:induction false} FilterSingle<T>(xs: seq<T>, p: T -> bool, k: nat)
    requires k < |xs| && p(xs[k])
    requires forall j :: 0 <= j < |xs| && j != k ==> !p(xs[j])
    ensures Filter(xs, p) == [xs[k]]
  {
    var init := xs[..|xs| - 1];
    if k == |xs| - 1 {
      FilterNone(init, p);
    } else {
      FilterSingle(init, p, k);
    }
  }

  /** Appending the first element that satisfies `p` makes it the one `FirstWhere` finds. */
  lemma {:induction false} FirstWhereAppend<T>(xs: seq<T>, x: T, p: T -> bool)
    requires forall j :: 0 <= j < |xs| ==> !p(xs[j])
    requires p(x)
    ensures FirstWhere(xs + [x], p) == Some(|xs|)
  {
    if xs != [] {
      assert (xs + [x])[1..] == xs[1..] + [x];
      FirstWhereAppend(xs[1..], x, p);
    }
  }
}
