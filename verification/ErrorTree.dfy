/**
 Error classification of retry/retry.go over finite trees of wrapped and joined errors.

 A node is an error value; its children are what Unwrap() returns: none, one, or, for errors.Join,
 many. Types are matched plainly: custom Is and As methods are not part of this model.
 */
module ErrorTree {
  import opened Wrappers

  datatype Kind =
    | Canceled                                     // context.Canceled
    | DeadlineExceeded                             // context.DeadlineExceeded
    | Http(status: int)                            // *HTTPError
    | Op                                           // *net.OpError
    | Net(timeout: bool, temporary: bool)          // any other net.Error
    | Opaque                                       // everything else, wrappers and joins included

  datatype Err = Node(kind: Kind, unwrap: seq<Err>)

  predicate IsContext(k: Kind) {
    k.Canceled? || k.DeadlineExceeded?
  }

  predicate IsHttp(k: Kind) {
    k.Http?
  }

  predicate IsOp(k: Kind) {
    k.Op?
  }

  /** *net.OpError and context.DeadlineExceeded have Timeout and Temporary methods too. */
  predicate IsNetError(k: Kind) {
    k.Net? || k.Op? || k.DeadlineExceeded?
  }

  predicate TransientStatus(status: int) {
    status in {429, 502, 503, 504, 529}
  }

  // ----- The code ---------------------------------------------------------------------------

  /** errors.Is: depth first, the error itself before what it wraps. */
  predicate Is(e: Err, target: Kind)
    decreases e, 0
  {
    e.kind == target || AnyIs(e.unwrap, target)
  }

  predicate AnyIs(es: seq<Err>, target: Kind)
    decreases es, 1
  {
    es != [] && (Is(es[0], target) || AnyIs(es[1..], target))
  }

  /** errors.As: the first match in the same order. */
  function As(e: Err, matches: Kind -> bool): Option<Kind>
    decreases e, 0
  {
    if matches(e.kind) then Some(e.kind) else AsAny(e.unwrap, matches)
  }

  function AsAny(es: seq<Err>, matches: Kind -> bool): Option<Kind>
    decreases es, 1
  {
    if es == [] then None
    else match As(es[0], matches)
         case Some(k) => Some(k)
         case None => AsAny(es[1..], matches)
  }

  /** Timeout() || Temporary() of a net.Error; an OpError never gets this far. */
  predicate TimeoutOrTemporary(k: Kind) {
    k.Net? && (k.timeout || k.temporary)
  }

  predicate IsTransient(err: Option<Err>) {
    match err
    case None => false
    case Some(e) =>
      if Is(e, Canceled) || Is(e, DeadlineExceeded) then false
      else match As(e, IsHttp)
           case Some(k) => k.Http? && TransientStatus(k.status)
           case None =>
             if As(e, IsOp).Some? then true
             else match As(e, IsNetError)
                  case Some(k) => TimeoutOrTemporary(k)
                  case None => false
  }

  // ----- The rule ---------------------------------------------------------------------------

  /** The kinds of a tree in pre-order. */
  function Flatten(e: Err): seq<Kind>
    decreases e, 0
  {
    [e.kind] + FlattenAll(e.unwrap)
  }

  function FlattenAll(es: seq<Err>): seq<Kind>
    decreases es, 1
  {
    if es == [] then [] else Flatten(es[0]) + FlattenAll(es[1..])
  }

  /** Position i holds the first kind that satisfies p. */
  ghost predicate FirstAt(ks: seq<Kind>, p: Kind -> bool, i: nat) {
    i < |ks| && p(ks[i]) && forall j :: 0 <= j < i ==> !p(ks[j])
  }

  ghost predicate Nowhere(ks: seq<Kind>, p: Kind -> bool) {
    forall j :: 0 <= j < |ks| ==> !p(ks[j])
  }

  /**
   First match by priority: a context error anywhere decides against; else the first HTTP status
   decides; else any OpError decides for; else the first net.Error decides; else not transient.
   */
  ghost predicate Rule(ks: seq<Kind>) {
    && Nowhere(ks, IsContext)
    && ((exists i: nat :: FirstAt(ks, IsHttp, i) && TransientStatus(ks[i].status))
        || (Nowhere(ks, IsHttp) && !Nowhere(ks, IsOp))
        || (Nowhere(ks, IsHttp) && Nowhere(ks, IsOp)
            && exists i: nat :: FirstAt(ks, IsNetError, i) && TimeoutOrTemporary(ks[i])))
  }

  // ----- The code follows the rule ----------------------------------------------------------

  function First(ks: seq<Kind>, p: Kind -> bool): Option<Kind> {
    if ks == [] then None
    else if p(ks[0]) then Some(ks[0])
    else First(ks[1..], p)
  }

  lemma {:induction false} FirstAppend(ks: seq<Kind>, ls: seq<Kind>, p: Kind -> bool)
    ensures First(ks + ls, p) == if First(ks, p).Some? then First(ks, p) else First(ls, p)
  {
    if ks == [] {
      assert ks + ls == ls;
    } else {
      assert (ks + ls)[1..] == ks[1..] + ls;
      FirstAppend(ks[1..], ls, p);
    }
  }

  lemma {:induction false} AsIsFirst(e: Err, p: Kind -> bool)
    ensures As(e, p) == First(Flatten(e), p)
    decreases e, 0
  {
    AsAnyIsFirst(e.unwrap, p);
    FirstAppend([e.kind], FlattenAll(e.unwrap), p);
    assert [e.kind][1..] == [];
  }

  lemma {:induction false} AsAnyIsFirst(es: seq<Err>, p: Kind -> bool)
    ensures AsAny(es, p) == First(FlattenAll(es), p)
    decreases es, 1
  {
    if es == [] {
    } else {
      AsIsFirst(es[0], p);
      AsAnyIsFirst(es[1..], p);
      FirstAppend(Flatten(es[0]), FlattenAll(es[1..]), p);
    }
  }

  lemma {:induction false} IsMeansMember(e: Err, target: Kind)
    ensures Is(e, target) <==> target in Flatten(e)
    decreases e, 0
  {
    AnyIsMeansMember(e.unwrap, target);
  }

  lemma {:induction false} AnyIsMeansMember(es: seq<Err>, target: Kind)
    ensures AnyIs(es, target) <==> target in FlattenAll(es)
    decreases es, 1
  {
    if es == [] {
    } else {
      IsMeansMember(es[0], target);
      AnyIsMeansMember(es[1..], target);
    }
  }

  lemma {:induction false} FirstMeansFirstAt(ks: seq<Kind>, p: Kind -> bool)
    ensures First(ks, p) == None <==> Nowhere(ks, p)
    ensures forall i: nat :: FirstAt(ks, p, i) ==> First(ks, p) == Some(ks[i])
    ensures First(ks, p).Some? ==> exists i: nat :: FirstAt(ks, p, i) && ks[i] == First(ks, p).value
  {
    if ks == [] {
    } else {
      FirstMeansFirstAt(ks[1..], p);
      if p(ks[0]) {
        assert FirstAt(ks, p, 0);
      } else {
        forall i: nat | FirstAt(ks, p, i)
          ensures First(ks, p) == Some(ks[i])
        {
          assert FirstAt(ks[1..], p, i - 1);
        }
        if First(ks, p).Some? {
          var i: nat :| FirstAt(ks[1..], p, i) && ks[1..][i] == First(ks, p).value;
          assert FirstAt(ks, p, i + 1);
        }
      }
    }
  }

  lemma {:induction false} IsTransientIsRule(e: Err)
    ensures IsTransient(Some(e)) <==> Rule(Flatten(e))
  {
    var ks := Flatten(e);
    IsMeansMember(e, Canceled);
    IsMeansMember(e, DeadlineExceeded);
    AsIsFirst(e, IsHttp);
    AsIsFirst(e, IsOp);
    AsIsFirst(e, IsNetError);
    FirstMeansFirstAt(ks, IsHttp);
    FirstMeansFirstAt(ks, IsOp);
    FirstMeansFirstAt(ks, IsNetError);
    assert Nowhere(ks, IsContext) <==> Canceled !in ks && DeadlineExceeded !in ks;
  }

  ghost predicate NoContext(ks: seq<Kind>) {
    forall i :: 0 <= i < |ks| ==> ks[i] != Canceled && ks[i] != DeadlineExceeded
  }

  ghost predicate NoHttp(ks: seq<Kind>, n: nat) {
    forall i :: 0 <= i < n && i < |ks| ==> !ks[i].Http?
  }

  /** No error at all is not transient, and neither is a tree with a context error. */
  lemma {:induction false} NeverTransient(e: Err)
    ensures !IsTransient(None)
    ensures !NoContext(Flatten(e)) ==> !IsTransient(Some(e))
  {
    IsTransientIsRule(e);
    if !NoContext(Flatten(e)) {
      var i :| 0 <= i < |Flatten(e)| && (Flatten(e)[i] == Canceled || Flatten(e)[i] == DeadlineExceeded);
      assert IsContext(Flatten(e)[i]);
    }
  }

  /** Without a context error the first HTTP status decides: five of them are transient. */
  lemma {:induction false} FirstStatusDecides(e: Err, i: nat)
    requires NoContext(Flatten(e)) && i < |Flatten(e)| && Flatten(e)[i].Http? && NoHttp(Flatten(e), i)
    ensures var s := Flatten(e)[i].status;
            IsTransient(Some(e)) <==> s == 429 || s == 502 || s == 503 || s == 504 || s == 529
  {
    IsTransientIsRule(e);
    var ks := Flatten(e);
    assert FirstAt(ks, IsHttp, i);
    FirstMeansFirstAt(ks, IsHttp);
  }

  /** Without either, any OpError means transient. */
  lemma {:induction false} OpErrorDecides(e: Err, i: nat)
    requires NoContext(Flatten(e)) && NoHttp(Flatten(e), |Flatten(e)|)
    requires i < |Flatten(e)| && Flatten(e)[i] == Op
    ensures IsTransient(Some(e))
  {
    IsTransientIsRule(e);
    assert IsOp(Flatten(e)[i]);
  }

  /** Without any of these, the first net.Error decides, by Timeout or Temporary. */
  lemma {:induction false} FirstNetErrorDecides(e: Err, i: nat)
    requires NoContext(Flatten(e)) && NoHttp(Flatten(e), |Flatten(e)|)
    requires forall j :: 0 <= j < |Flatten(e)| ==> Flatten(e)[j] != Op
    requires i < |Flatten(e)| && Flatten(e)[i].Net? && forall j :: 0 <= j < i ==> !Flatten(e)[j].Net?
    ensures IsTransient(Some(e)) <==> Flatten(e)[i].timeout || Flatten(e)[i].temporary
  {
    IsTransientIsRule(e);
    var ks := Flatten(e);
    assert FirstAt(ks, IsNetError, i);
    FirstMeansFirstAt(ks, IsNetError);
  }

  /** A tree in which every kind is opaque is not transient. */
  lemma {:induction false} OpaqueIsNotTransient(e: Err)
    requires forall j :: 0 <= j < |Flatten(e)| ==> Flatten(e)[j] == Opaque
    ensures !IsTransient(Some(e))
  {
    IsTransientIsRule(e);
  }

  /** The outer status decides against any inside, and of joined errors the earlier one. */
  lemma {:induction false} OuterAndEarlierFirst(s: int, inside: seq<Err>, behind: seq<Err>)
    requires NoContext(FlattenAll(inside)) && NoContext(FlattenAll(behind))
    ensures var e := Node(Opaque, [Node(Http(s), inside)] + behind);
            IsTransient(Some(e)) <==> s == 429 || s == 502 || s == 503 || s == 504 || s == 529
  {
    var own := Node(Http(s), inside);
    var es := [own] + behind;
    assert es[0] == own && es[1..] == behind;
    assert FlattenAll(es) == Flatten(own) + FlattenAll(behind);
    var e := Node(Opaque, es);
    assert Flatten(e)[0] == Opaque && Flatten(e)[1..] == FlattenAll(es) && Flatten(own)[0] == Http(s);
    assert Flatten(own)[1..] == FlattenAll(inside);
    FirstStatusDecides(e, 1);
  }

  /** A context error anywhere in the tree means: not transient. */
  lemma {:induction false} ContextWins(e: Err, k: Kind)
    requires IsContext(k) && k in Flatten(e)
    ensures !IsTransient(Some(e))
  {
    IsTransientIsRule(e);
  }

  // ----- What does not matter ---------------------------------------------------------------

  /** The kinds that can decide anything. */
  function Telling(ks: seq<Kind>): seq<Kind> {
    if ks == [] then []
    else (if ks[0].Opaque? then [] else [ks[0]]) + Telling(ks[1..])
  }

  lemma {:induction false} FirstIsTelling(ks: seq<Kind>, p: Kind -> bool)
    requires !p(Opaque)
    ensures First(ks, p) == First(Telling(ks), p)
  {
    if ks == [] {
    } else {
      FirstIsTelling(ks[1..], p);
      if !ks[0].Opaque? {
        assert Telling(ks)[1..] == Telling(ks[1..]);
      } else {
        assert ks[0] == Opaque;
        assert Telling(ks) == Telling(ks[1..]);
      }
    }
  }

  lemma {:induction false} TellingAppend(ks: seq<Kind>, ls: seq<Kind>)
    ensures Telling(ks + ls) == Telling(ks) + Telling(ls)
  {
    if ks == [] {
      assert ks + ls == ls;
    } else {
      assert (ks + ls)[1..] == ks[1..] + ls;
      TellingAppend(ks[1..], ls);
    }
  }

  lemma {:induction false} TellingMember(ks: seq<Kind>, k: Kind)
    requires !k.Opaque?
    ensures k in ks <==> k in Telling(ks)
  {
    if ks == [] {
    } else {
      TellingMember(ks[1..], k);
    }
  }

  /** Two trees with the same telling kinds in the same order are classified alike. */
  lemma {:induction false} SameTellingSameAnswer(a: Err, b: Err)
    requires Telling(Flatten(a)) == Telling(Flatten(b))
    ensures IsTransient(Some(a)) == IsTransient(Some(b))
  {
    TellingLaws(a);
    TellingLaws(b);
  }

  lemma {:induction false} TellingLaws(e: Err)
    ensures Is(e, Canceled) <==> Canceled in Telling(Flatten(e))
    ensures Is(e, DeadlineExceeded) <==> DeadlineExceeded in Telling(Flatten(e))
    ensures As(e, IsHttp) == First(Telling(Flatten(e)), IsHttp)
    ensures As(e, IsOp) == First(Telling(Flatten(e)), IsOp)
    ensures As(e, IsNetError) == First(Telling(Flatten(e)), IsNetError)
  {
    var ks := Flatten(e);
    IsMeansMember(e, Canceled);
    IsMeansMember(e, DeadlineExceeded);
    TellingMember(ks, Canceled);
    TellingMember(ks, DeadlineExceeded);
    AsIsFirst(e, IsHttp);
    AsIsFirst(e, IsOp);
    AsIsFirst(e, IsNetError);
    FirstIsTelling(ks, IsHttp);
    FirstIsTelling(ks, IsOp);
    FirstIsTelling(ks, IsNetError);
  }

  /** fmt.Errorf("...: %w", e) */
  function Wrap(e: Err): Err {
    Node(Opaque, [e])
  }

  /** errors.Join(es...) */
  function Join(es: seq<Err>): Err {
    Node(Opaque, es)
  }

  lemma {:induction false} FlattenAllAppend(es: seq<Err>, fs: seq<Err>)
    ensures FlattenAll(es + fs) == FlattenAll(es) + FlattenAll(fs)
  {
    if es == [] {
      assert es + fs == fs;
    } else {
      assert (es + fs)[1..] == es[1..] + fs;
      FlattenAllAppend(es[1..], fs);
    }
  }

  /** What the members of a join tell, in order. */
  function TellingAll(es: seq<Err>): seq<Kind> {
    Telling(FlattenAll(es))
  }

  lemma {:induction false} TellingAllAppend(es: seq<Err>, fs: seq<Err>)
    ensures TellingAll(es + fs) == TellingAll(es) + TellingAll(fs)
  {
    FlattenAllAppend(es, fs);
    TellingAppend(FlattenAll(es), FlattenAll(fs));
  }

  lemma {:induction false} TellingNode(kind: Kind, es: seq<Err>)
    ensures Telling(Flatten(Node(kind, es))) == (if kind.Opaque? then [] else [kind]) + TellingAll(es)
  {
    assert Flatten(Node(kind, es))[1..] == FlattenAll(es);
  }

  lemma {:induction false} TellingOne(e: Err)
    ensures TellingAll([e]) == Telling(Flatten(e))
  {
    assert [e][1..] == [];
    assert FlattenAll([e]) == Flatten(e);
  }

  lemma {:induction false} JoinTells(es: seq<Err>)
    ensures Telling(Flatten(Join(es))) == TellingAll(es) && TellingAll([Join(es)]) == TellingAll(es)
  {
    TellingNode(Opaque, es);
    TellingOne(Join(es));
  }

  /** An error tree with one subtree taken out: any place in any tree. */
  datatype Context = Hole | Under(kind: Kind, before: seq<Err>, inside: Context, behind: seq<Err>)

  function Plug(c: Context, e: Err): Err {
    match c
    case Hole => e
    case Under(kind, before, inside, behind) => Node(kind, before + [Plug(inside, e)] + behind)
  }

  /** What a tree tells depends on a subtree only through what the subtree tells. */
  lemma {:induction false} PlugTells(c: Context, a: Err, b: Err)
    requires Telling(Flatten(a)) == Telling(Flatten(b))
    ensures Telling(Flatten(Plug(c, a))) == Telling(Flatten(Plug(c, b)))
  {
    match c
    case Hole =>
    case Under(kind, before, inside, behind) =>
      PlugTells(inside, a, b);
      var x, y := Plug(inside, a), Plug(inside, b);
      assert Plug(c, a) == Node(kind, before + [x] + behind) && Plug(c, b) == Node(kind, before + [y] + behind);
      hide *;
      TellingNode(kind, before + [x] + behind);
      TellingNode(kind, before + [y] + behind);
      TellingAllAppend(before + [x], behind);
      TellingAllAppend(before + [y], behind);
      TellingAllAppend(before, [x]);
      TellingAllAppend(before, [y]);
      TellingOne(x);
      TellingOne(y);
  }

  /** Anywhere in a tree, a subtree may be replaced by one that tells the same. */
  lemma {:induction false} ReplacingIsInvisible(c: Context, a: Err, b: Err)
    requires Telling(Flatten(a)) == Telling(Flatten(b))
    ensures IsTransient(Some(Plug(c, a))) == IsTransient(Some(Plug(c, b)))
  {
    PlugTells(c, a, b);
    SameTellingSameAnswer(Plug(c, a), Plug(c, b));
  }

  /** Wrapping any error of a tree, the root or one inside, changes nothing. */
  lemma {:induction false} WrappingIsInvisible(c: Context, e: Err)
    ensures IsTransient(Some(Plug(c, Wrap(e)))) == IsTransient(Some(Plug(c, e)))
  {
    TellingNode(Opaque, [e]);
    TellingOne(e);
    ReplacingIsInvisible(c, Wrap(e), e);
  }

  /** Anywhere in a tree, joining a join is joining its members in place. */
  lemma {:induction false} JoinsReassociate(c: Context, before: seq<Err>, es: seq<Err>, behind: seq<Err>)
    ensures IsTransient(Some(Plug(c, Join(before + [Join(es)] + behind)))) ==
            IsTransient(Some(Plug(c, Join(before + es + behind))))
  {
    hide *;
    TellingAllAppend(before + [Join(es)], behind);
    TellingAllAppend(before, [Join(es)]);
    TellingAllAppend(before + es, behind);
    TellingAllAppend(before, es);
    JoinTells(es);
    JoinTells(before + [Join(es)] + behind);
    JoinTells(before + es + behind);
    ReplacingIsInvisible(c, Join(before + [Join(es)] + behind), Join(before + es + behind));
  }
}
