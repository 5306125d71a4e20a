/**
 * What the constructors of the composite structures do with a child list:
 * count the children of a type, remember the last child of a type (a field
 * that each occurrence overwrites), collect every child of a type in order
 * (a list that each occurrence appends to), and convert every child in turn,
 * stopping at the first child whose conversion throws.
 *
 * Each is defined on the first n children, so that a loop that has handled
 * n children can state what it has built so far.
 */
module Children {
  import opened Wrappers
  import opened Exceptions
  import opened Parser

  /** The number of children of the given type among the first n. */
  function CountUpTo(cs: seq<Tag>, n: nat, t: nat): nat
    requires n <= |cs|
  {
    if n == 0 then 0
    else CountUpTo(cs, n - 1, t) + (if cs[n - 1].tagType == t then 1 else 0)
  }

  function CountType(cs: seq<Tag>, t: nat): nat {
    CountUpTo(cs, |cs|, t)
  }

  /** The last child of the given type among the first n: the value a field keeps when every occurrence assigns it. */
  function LastUpTo(cs: seq<Tag>, n: nat, t: nat): Option<Tag>
    requires n <= |cs|
  {
    if n == 0 then None
    else if cs[n - 1].tagType == t then Some(cs[n - 1])
    else LastUpTo(cs, n - 1, t)
  }

  function LastOfType(cs: seq<Tag>, t: nat): Option<Tag> {
    LastUpTo(cs, |cs|, t)
  }

  /** The children of the given type among the first n, in order: the list each occurrence appends to. */
  function AllUpTo(cs: seq<Tag>, n: nat, t: nat): seq<Tag>
    requires n <= |cs|
  {
    if n == 0 then []
    else AllUpTo(cs, n - 1, t) + (if cs[n - 1].tagType == t then [cs[n - 1]] else [])
  }

  function AllOfType(cs: seq<Tag>, t: nat): seq<Tag> {
    AllUpTo(cs, |cs|, t)
  }

  /**
   * Converts the first n children one after the other. The result is the
   * converted list when every one converts, and otherwise the exception of the
   * first child that does not.
   */
  function ConvertUpTo(cs: seq<Tag>, n: nat, f: Tag -> Result<Tag, Error>): Result<seq<Tag>, Error>
    requires n <= |cs|
  {
    if n == 0 then Ok([])
    else
      match ConvertUpTo(cs, n - 1, f)
      case Err(e) => Err(e)
      case Ok(done) =>
        match f(cs[n - 1])
        case Err(e) => Err(e)
        case Ok(x) => Ok(done + [x])
  }

  function ConvertAll(cs: seq<Tag>, f: Tag -> Result<Tag, Error>): Result<seq<Tag>, Error> {
    ConvertUpTo(cs, |cs|, f)
  }

  /** The converted form of a kept child, for a field that holds the object built from the last child of its type. */
  function Converted(f: Tag -> Result<Tag, Error>, o: Option<Tag>): Option<Tag> {
    match o
    case None => None
    case Some(x) => if f(x).Ok? then Some(f(x).value) else None
  }

  /** No child among the first n has the type exactly when the count is zero; the count never exceeds n. */
  lemma {:induction false} CountUpToSpec(cs: seq<Tag>, n: nat, t: nat)
    requires n <= |cs|
    ensures CountUpTo(cs, n, t) <= n
    ensures CountUpTo(cs, n, t) == 0 <==> forall k :: 0 <= k < n ==> cs[k].tagType != t
  {
    if n > 0 {
      CountUpToSpec(cs, n - 1, t);
    }
  }

  /** The kept field is null exactly when no child has the type, and otherwise is the last child of the type. */
  lemma {:induction false} LastUpToSpec(cs: seq<Tag>, n: nat, t: nat)
    requires n <= |cs|
    ensures LastUpTo(cs, n, t).None? <==> CountUpTo(cs, n, t) == 0
    ensures LastUpTo(cs, n, t).Some? ==>
              exists j :: 0 <= j < n && cs[j] == LastUpTo(cs, n, t).value && cs[j].tagType == t
                          && forall k :: j < k < n ==> cs[k].tagType != t
  {
    if n > 0 {
      LastUpToSpec(cs, n - 1, t);
      if cs[n - 1].tagType == t {
        assert cs[n - 1] == LastUpTo(cs, n, t).value;
      }
    }
  }

  /** The appended list holds as many children as have the type, each of that type and taken from the list. */
  lemma {:induction false} AllUpToSpec(cs: seq<Tag>, n: nat, t: nat)
    requires n <= |cs|
    ensures |AllUpTo(cs, n, t)| == CountUpTo(cs, n, t)
    ensures forall k :: 0 <= k < |AllUpTo(cs, n, t)| ==> AllUpTo(cs, n, t)[k].tagType == t && AllUpTo(cs, n, t)[k] in cs[..n]
  {
    if n > 0 {
      AllUpToSpec(cs, n - 1, t);
      assert cs[..n] == cs[..n - 1] + [cs[n - 1]];
    }
  }

  /** The conversion succeeds exactly when each of the first n children converts, and then holds each one's converted form in place. */
  lemma {:induction false} ConvertUpToSpec(cs: seq<Tag>, n: nat, f: Tag -> Result<Tag, Error>)
    requires n <= |cs|
    ensures ConvertUpTo(cs, n, f).Ok? <==> forall k :: 0 <= k < n ==> f(cs[k]).Ok?
    ensures ConvertUpTo(cs, n, f).Ok? ==>
              |ConvertUpTo(cs, n, f).value| == n && forall k :: 0 <= k < n ==> f(cs[k]) == Ok(ConvertUpTo(cs, n, f).value[k])
    ensures ConvertUpTo(cs, n, f).Err? ==>
              exists k :: 0 <= k < n && f(cs[k]) == Err(ConvertUpTo(cs, n, f).error) && forall j :: 0 <= j < k ==> f(cs[j]).Ok?
  {
    if n > 0 {
      ConvertUpToSpec(cs, n - 1, f);
      if ConvertUpTo(cs, n - 1, f).Err? {
        var k :| 0 <= k < n - 1 && f(cs[k]) == Err(ConvertUpTo(cs, n - 1, f).error) && forall j :: 0 <= j < k ==> f(cs[j]).Ok?;
        assert f(cs[k]) == Err(ConvertUpTo(cs, n, f).error);
      } else if f(cs[n - 1]).Err? {
        assert f(cs[n - 1]) == Err(ConvertUpTo(cs, n, f).error);
      }
    }
  }

  /** A conversion that succeeds on the first k children and throws on the next throws that child's exception, however far it goes. */
  lemma {:induction false} ConvertStopsAt(cs: seq<Tag>, n: nat, k: nat, f: Tag -> Result<Tag, Error>)
    requires k < n <= |cs| && ConvertUpTo(cs, k, f).Ok? && f(cs[k]).Err?
    ensures ConvertUpTo(cs, n, f) == Err(f(cs[k]).error)
  {
    if n > k + 1 {
      ConvertStopsAt(cs, n - 1, k, f);
    }
  }

  /** The first n results depend only on the first n children. */
  lemma {:induction false} PrefixFrame(cs: seq<Tag>, ds: seq<Tag>, n: nat, t: nat)
    requires n <= |cs| && n <= |ds| && forall k :: 0 <= k < n ==> cs[k] == ds[k]
    ensures CountUpTo(cs, n, t) == CountUpTo(ds, n, t)
    ensures LastUpTo(cs, n, t) == LastUpTo(ds, n, t)
    ensures AllUpTo(cs, n, t) == AllUpTo(ds, n, t)
  {
    if n > 0 {
      PrefixFrame(cs, ds, n - 1, t);
    }
  }

  /** The count and the children of a type among the first n depend only on the first n children. */
  lemma {:induction false} AllFrame(cs: seq<Tag>, ds: seq<Tag>, n: nat, t: nat)
    requires n <= |cs| && n <= |ds| && forall k :: 0 <= k < n ==> cs[k] == ds[k]
    ensures CountUpTo(cs, n, t) == CountUpTo(ds, n, t)
    ensures AllUpTo(cs, n, t) == AllUpTo(ds, n, t)
  {
    if n > 0 {
      AllFrame(cs, ds, n - 1, t);
    }
  }

  /** Handling one more child: the count grows, the field is overwritten and the list extended exactly when the child has the type. */
  lemma TypeSnoc(cs: seq<Tag>, x: Tag, t: nat)
    ensures CountType(cs + [x], t) == CountType(cs, t) + (if x.tagType == t then 1 else 0)
    ensures LastOfType(cs + [x], t) == if x.tagType == t then Some(x) else LastOfType(cs, t)
    ensures AllOfType(cs + [x], t) == AllOfType(cs, t) + (if x.tagType == t then [x] else [])
  {
    PrefixFrame(cs + [x], cs, |cs|, t);
  }

  /** Each of the first n children converted in place, keeping its type. */
  ghost predicate ConvertedInPlace(cs: seq<Tag>, ds: seq<Tag>, n: nat, f: Tag -> Result<Tag, Error>)
    requires n <= |cs| && n <= |ds|
  {
    forall k :: 0 <= k < n ==> f(cs[k]) == Ok(ds[k]) && ds[k].tagType == cs[k].tagType
  }

  /** Converting in place keeps every count. */
  lemma {:induction false} CountConverted(cs: seq<Tag>, ds: seq<Tag>, n: nat, f: Tag -> Result<Tag, Error>, t: nat)
    requires n <= |cs| && n <= |ds| && ConvertedInPlace(cs, ds, n, f)
    ensures CountUpTo(ds, n, t) == CountUpTo(cs, n, t)
  {
    if n > 0 {
      CountConverted(cs, ds, n - 1, f, t);
    }
  }

  /** The field a conversion loop keeps for a type is the converted last child of that type. */
  lemma {:induction false} LastConverted(cs: seq<Tag>, ds: seq<Tag>, n: nat, f: Tag -> Result<Tag, Error>, t: nat)
    requires n <= |cs| && n <= |ds| && ConvertedInPlace(cs, ds, n, f)
    ensures LastUpTo(ds, n, t).None? <==> LastUpTo(cs, n, t).None?
    ensures LastUpTo(cs, n, t).Some? ==> f(LastUpTo(cs, n, t).value) == Ok(LastUpTo(ds, n, t).value)
  {
    if n > 0 {
      LastConverted(cs, ds, n - 1, f, t);
    }
  }

  /** The list a conversion loop appends to for a type holds the converted children of that type, in order. */
  lemma {:induction false} AllConverted(cs: seq<Tag>, ds: seq<Tag>, n: nat, f: Tag -> Result<Tag, Error>, t: nat)
    requires n <= |cs| && n <= |ds| && ConvertedInPlace(cs, ds, n, f)
    ensures |AllUpTo(ds, n, t)| == |AllUpTo(cs, n, t)|
    ensures forall k :: 0 <= k < |AllUpTo(cs, n, t)| ==> f(AllUpTo(cs, n, t)[k]) == Ok(AllUpTo(ds, n, t)[k])
  {
    if n > 0 {
      AllConverted(cs, ds, n - 1, f, t);
    }
  }

  /** A conversion that keeps the type of every child it accepts. */
  ghost predicate KeepsTypes(f: Tag -> Result<Tag, Error>) {
    forall x :: f(x).Ok? ==> f(x).value.tagType == x.tagType
  }

  /**
   * A whole conversion that succeeds keeps the length and converts each child
   * in place; so the typed last child of a type is the conversion of the last
   * child of that type, the counts do not change, and the typed children of a
   * type are the conversions of the children of that type, in order.
   */
  lemma ConvertAllInPlace(cs: seq<Tag>, f: Tag -> Result<Tag, Error>, t: nat)
    requires KeepsTypes(f) && ConvertAll(cs, f).Ok?
    ensures |ConvertAll(cs, f).value| == |cs|
    ensures ConvertedInPlace(cs, ConvertAll(cs, f).value, |cs|, f)
    ensures LastOfType(ConvertAll(cs, f).value, t) == Converted(f, LastOfType(cs, t))
    ensures CountType(ConvertAll(cs, f).value, t) == CountType(cs, t)
    ensures |AllOfType(ConvertAll(cs, f).value, t)| == |AllOfType(cs, t)|
    ensures forall k :: 0 <= k < |AllOfType(cs, t)| ==> f(AllOfType(cs, t)[k]) == Ok(AllOfType(ConvertAll(cs, f).value, t)[k])
  {
    var typed := ConvertAll(cs, f).value;
    ConvertUpToSpec(cs, |cs|, f);
    assert ConvertedInPlace(cs, typed, |cs|, f) by {
      forall k | 0 <= k < |cs|
        ensures f(cs[k]) == Ok(typed[k]) && typed[k].tagType == cs[k].tagType
      {
        assert f(cs[k]).Ok?;
      }
    }
    LastConverted(cs, typed, |cs|, f, t);
    CountConverted(cs, typed, |cs|, f, t);
    AllConverted(cs, typed, |cs|, f, t);
  }

  // ------------------------------------------------- loops with a running state

  /**
   * A constructor's loop as a fold: each child is replaced by its typed form and
   * updates the object's fields (a value of type A); the first exception stops
   * the loop. The result holds the typed children and the fields after the
   * first n children.
   */
  function FoldUpTo<A>(cs: seq<Tag>, n: nat, init: A, step: (Tag, A) -> Result<(Tag, A), Error>): Result<(seq<Tag>, A), Error>
    requires n <= |cs|
  {
    if n == 0 then Ok(([], init))
    else
      var before :- FoldUpTo(cs, n - 1, init, step);
      var next :- step(cs[n - 1], before.1);
      Ok((before.0 + [next.0], next.1))
  }

  /** A loop that handles the first k children and throws on the next one throws that exception. */
  lemma {:induction false} FoldStopsAt<A>(cs: seq<Tag>, n: nat, k: nat, init: A, step: (Tag, A) -> Result<(Tag, A), Error>)
    requires k < n <= |cs| && FoldUpTo(cs, k, init, step).Ok? && step(cs[k], FoldUpTo(cs, k, init, step).value.1).Err?
    ensures FoldUpTo(cs, n, init, step) == Err(step(cs[k], FoldUpTo(cs, k, init, step).value.1).error)
  {
    if n > k + 1 {
      FoldStopsAt(cs, n - 1, k, init, step);
    }
  }

  /** The typed form of a child, and whether it throws, do not depend on the fields: the step converts by f. */
  ghost predicate StepConverts<A(!new)>(step: (Tag, A) -> Result<(Tag, A), Error>, f: Tag -> Result<Tag, Error>) {
    forall x: Tag, a: A ::
      match step(x, a)
      case Ok(p) => f(x) == Ok(p.0)
      case Err(e) => f(x) == Err(e)
  }

  /**
   * A loop whose step converts by f throws exactly when converting the
   * children by f throws, with the same exception, and otherwise holds the
   * same typed children.
   */
  lemma {:induction false} FoldConverts<A(!new)>(cs: seq<Tag>, n: nat, init: A, step: (Tag, A) -> Result<(Tag, A), Error>,
                                          f: Tag -> Result<Tag, Error>)
    requires n <= |cs| && StepConverts(step, f)
    ensures FoldUpTo(cs, n, init, step).Ok? <==> ConvertUpTo(cs, n, f).Ok?
    ensures FoldUpTo(cs, n, init, step).Err? ==> FoldUpTo(cs, n, init, step).error == ConvertUpTo(cs, n, f).error
    ensures FoldUpTo(cs, n, init, step).Ok? ==> FoldUpTo(cs, n, init, step).value.0 == ConvertUpTo(cs, n, f).value
  {
    if n > 0 {
      FoldConverts(cs, n - 1, init, step, f);
      if FoldUpTo(cs, n - 1, init, step).Ok? {
        var r := step(cs[n - 1], FoldUpTo(cs, n - 1, init, step).value.1);
        assert r.Ok? ==> f(cs[n - 1]) == Ok(r.value.0);
        assert r.Err? ==> f(cs[n - 1]) == Err(r.error);
      }
    }
  }
}
