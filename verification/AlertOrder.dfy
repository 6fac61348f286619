/** Events on different resources are independent, so neither the order in which organizations are visited
    nor the way their events are cut into pages can be seen in the result. */
module AlertOrder {
  import opened Common
  import opened Alerts

  // ---- Keys ----------------------------------------------------------------------------------

  lemma SplitAtColon(a: string, x: string, b: string, y: string)
    requires ColonFree(a) && ColonFree(b) && a + ":" + x == b + ":" + y
    ensures a == b && x == y
  {
    var s, t := a + ":" + x, b + ":" + y;
    assert s[|a|] == ':' && forall i :: 0 <= i < |a| ==> s[i] == a[i];
    assert t[|b|] == ':' && forall i :: 0 <= i < |b| ==> t[i] == b[i];
    assert |a| == |b|;
    assert s[..|a|] == a && t[..|b|] == b;
    assert s[|a| + 1..] == x && t[|b| + 1..] == y;
  }

  /** The composite key tells resources apart when organization and kind hold no colon. */
  lemma KeyIsInjective(o: string, k: string, n: string, o': string, k': string, n': string)
    requires ColonFree(o) && ColonFree(k) && ColonFree(o') && ColonFree(k')
    requires NewAlertKey(o, k, n) == NewAlertKey(o', k', n')
    ensures o == o' && k == k' && n == n'
  {
    assert NewAlertKey(o, k, n) == o + ":" + (k + ":" + n);
    assert NewAlertKey(o', k', n') == o' + ":" + (k' + ":" + n');
    SplitAtColon(o, k + ":" + n, o', k' + ":" + n');
    SplitAtColon(k, n, k', n');
  }

  /** No other resource has the key of this one. */
  ghost predicate OwnsKey(o: string, k: string, n: string) {
    forall o', k', n' :: NewAlertKey(o', k', n') == NewAlertKey(o, k, n) ==> o' == o && k' == k && n' == n
  }

  function Colons(s: string): nat {
    multiset(s)[':']
  }

  lemma KeyColons(o: string, k: string, n: string)
    ensures Colons(NewAlertKey(o, k, n)) == Colons(o) + Colons(k) + Colons(n) + 2
  {
    assert Colons(":") == 1;
  }

  lemma CutAtColon(s: string) returns (a: string, b: string)
    requires !ColonFree(s)
    ensures s == a + ":" + b && a != s
  {
    var i :| 0 <= i < |s| && s[i] == ':';
    a, b := s[..i], s[i + 1..];
  }

  /** A colon anywhere lets another resource have the same key. */
  lemma ColonsConfuseKeys(o: string, k: string, n: string)
    requires !(ColonFree(o) && ColonFree(k) && ColonFree(n))
    ensures !OwnsKey(o, k, n)
  {
    var key := NewAlertKey(o, k, n);
    if !ColonFree(o) {
      var a, b := CutAtColon(o);
      assert NewAlertKey(a, b, k + ":" + n) == key;
    } else if !ColonFree(k) {
      var a, b := CutAtColon(k);
      assert NewAlertKey(o, a, b + ":" + n) == key;
    } else {
      var a, b := CutAtColon(n);
      assert NewAlertKey(o, k + ":" + a, b) == key;
      assert |k + ":" + a| > |k|;
    }
  }

  /** A resource shares its key with no other exactly when organization, kind and name hold no colon. */
  lemma OwnsKeyIff(o: string, k: string, n: string)
    ensures OwnsKey(o, k, n) <==> ColonFree(o) && ColonFree(k) && ColonFree(n)
  {
    if ColonFree(o) && ColonFree(k) && ColonFree(n) {
      forall o', k', n' | NewAlertKey(o', k', n') == NewAlertKey(o, k, n)
        ensures o' == o && k' == k && n' == n
      {
        KeyColons(o, k, n);
        KeyColons(o', k', n');
        KeyIsInjective(o, k, n, o', k', n');
      }
    } else {
      ColonsConfuseKeys(o, k, n);
    }
  }

  // ---- Independence --------------------------------------------------------------------------

  predicate AgreeAt(a: AlertMap, b: AlertMap, k: string) {
    (k in a <==> k in b) && (k in a ==> a[k] == b[k])
  }

  /** What an event does depends on its own resource only, and leaves every other resource alone. */
  lemma ProcessIsLocal(c: Ctx, d: Ctx, ev: Event)
    requires AgreeAt(c.alerts, d.alerts, Key(ev))
    ensures var c', d' := Process(c, ev), Process(d, ev);
      && c'.created - c.created == d'.created - d.created
      && c'.resolved - c.resolved == d'.resolved - d.resolved
      && AgreeAt(c'.alerts, d'.alerts, Key(ev))
      && ChangesOnly(c.alerts, c'.alerts, Key(ev))
  {
  }

  /** `to` is `from` with at most the resource `k` changed. */
  ghost predicate ChangesOnly(from: AlertMap, to: AlertMap, k: string) {
    forall j :: j != k ==> AgreeAt(from, to, j)
  }

  /** Two changes of different resources, made in either order, meet. */
  lemma ChangesMeet(c: AlertMap, ce: AlertMap, cf: AlertMap, x: AlertMap, y: AlertMap, ke: string, kf: string)
    requires ke != kf && ChangesOnly(c, ce, ke) && ChangesOnly(ce, x, kf) && ChangesOnly(c, cf, kf) && ChangesOnly(cf, y, ke)
    requires AgreeAt(ce, y, ke) && AgreeAt(cf, x, kf)
    ensures x == y
  {
    forall k
      ensures (k in x <==> k in y) && (k in x ==> x[k] == y[k])
    {
      if k == ke {
        assert AgreeAt(ce, x, k);
      } else if k == kf {
        assert AgreeAt(cf, y, k);
      } else {
        assert AgreeAt(c, ce, k) && AgreeAt(ce, x, k) && AgreeAt(c, cf, k) && AgreeAt(cf, y, k);
      }
    }
  }

  lemma ProcessCommutes(c: Ctx, e: Event, f: Event)
    requires Key(e) != Key(f)
    ensures Process(Process(c, e), f) == Process(Process(c, f), e)
  {
    var ce, cf := Process(c, e), Process(c, f);
    ProcessIsLocal(c, c, e);
    ProcessIsLocal(c, c, f);
    assert AgreeAt(c.alerts, cf.alerts, Key(e)) && AgreeAt(c.alerts, ce.alerts, Key(f));
    ProcessIsLocal(c, cf, e);
    ProcessIsLocal(c, ce, f);
    ProcessIsLocal(cf, cf, e);
    ProcessIsLocal(ce, ce, f);
    ChangesMeet(c.alerts, ce.alerts, cf.alerts, Process(ce, f).alerts, Process(cf, e).alerts, Key(e), Key(f));
  }

  /** No event of one list concerns a resource of the other. */
  predicate Apart(a: seq<Event>, b: seq<Event>) {
    forall i, j :: 0 <= i < |a| && 0 <= j < |b| ==> Key(a[i]) != Key(b[j])
  }

  lemma {:induction false} RunCommutesWithEvent(c: Ctx, evs: seq<Event>, e: Event)
    requires forall i :: 0 <= i < |evs| ==> Key(evs[i]) != Key(e)
    ensures Process(Run(c, evs), e) == Run(Process(c, e), evs)
  {
    if evs != [] {
      var n := |evs| - 1;
      ProcessCommutes(Run(c, evs[..n]), evs[n], e);
      RunCommutesWithEvent(c, evs[..n], e);
    }
  }

  lemma {:induction false} RunsCommute(c: Ctx, a: seq<Event>, b: seq<Event>)
    requires Apart(a, b)
    ensures Run(Run(c, a), b) == Run(Run(c, b), a)
  {
    if b != [] {
      var n := |b| - 1;
      RunsCommute(c, a, b[..n]);
      RunCommutesWithEvent(Run(c, b[..n]), a, b[n]);
    }
  }

  // ---- Organizations -------------------------------------------------------------------------

  /** The usable events of one organization, oldest first. */
  datatype Listing = Listing(org: string, events: seq<Event>)

  predicate Labelled(x: Listing) {
    ColonFree(x.org) && forall i :: 0 <= i < |x.events| ==> x.events[i].org == x.org
  }

  predicate DistinctOrgs(xs: seq<Listing>) {
    forall i, j :: 0 <= i < j < |xs| ==> xs[i].org != xs[j].org
  }

  /** Organizations one after the other. */
  function RunAll(c: Ctx, xs: seq<Listing>): Ctx
    decreases |xs|
  {
    if xs == [] then c else RunAll(Run(c, xs[0].events), xs[1..])
  }

  lemma {:induction false} RunAllAppend(c: Ctx, a: seq<Listing>, b: seq<Listing>)
    ensures RunAll(c, a + b) == RunAll(RunAll(c, a), b)
    decreases |a|
  {
    if a == [] {
      assert a + b == b;
    } else {
      RunAllAppend(Run(c, a[0].events), a[1..], b);
      assert (a + b)[1..] == a[1..] + b;
    }
  }

  lemma DifferentOrgsAreApart(x: Listing, y: Listing)
    requires Labelled(x) && Labelled(y) && x.org != y.org
    ensures Apart(x.events, y.events)
  {
    forall i, j | 0 <= i < |x.events| && 0 <= j < |y.events|
      ensures Key(x.events[i]) != Key(y.events[j])
    {
      var e, f := x.events[i], y.events[j];
      if Key(e) == Key(f) {
        assert Key(e) == e.org + ":" + (e.kind + ":" + e.name) && Key(f) == f.org + ":" + (f.kind + ":" + f.name);
        SplitAtColon(e.org, e.kind + ":" + e.name, f.org, f.kind + ":" + f.name);
        assert false;
      }
    }
  }

  lemma {:induction false} MoveToFront(c: Ctx, xs: seq<Listing>, x: Listing)
    requires Labelled(x) && forall i :: 0 <= i < |xs| ==> Labelled(xs[i]) && xs[i].org != x.org
    ensures Run(RunAll(c, xs), x.events) == RunAll(Run(c, x.events), xs)
    decreases |xs|
  {
    if xs != [] {
      MoveToFront(Run(c, xs[0].events), xs[1..], x);
      DifferentOrgsAreApart(xs[0], x);
      RunsCommute(c, xs[0].events, x.events);
    }
  }

  /** Any organization may be taken first. */
  lemma AnyFirst(c: Ctx, ys: seq<Listing>, p: nat)
    requires p < |ys| && DistinctOrgs(ys) && forall i :: 0 <= i < |ys| ==> Labelled(ys[i])
    ensures RunAll(c, ys) == RunAll(Run(c, ys[p].events), Without(ys, p))
  {
    var x, before, after := ys[p], ys[..p], ys[p + 1..];
    assert ys == before + ([x] + after);
    RunAllAppend(c, before, [x] + after);
    assert ([x] + after)[1..] == after;
    MoveToFront(c, before, x);
    RunAllAppend(Run(c, x.events), before, after);
  }

  lemma SameMembers(xs: seq<Listing>, ys: seq<Listing>)
    requires multiset(xs) == multiset(ys) && forall i :: 0 <= i < |xs| ==> Labelled(xs[i])
    ensures |xs| == |ys| && forall i :: 0 <= i < |ys| ==> Labelled(ys[i])
  {
    assert |multiset(xs)| == |xs| && |multiset(ys)| == |ys|;
    forall i | 0 <= i < |ys|
      ensures Labelled(ys[i])
    {
      assert ys[i] in multiset(xs);
    }
  }

  /** Rearranging keeps organizations distinct. */
  lemma {:induction false} StillDistinct(xs: seq<Listing>, ys: seq<Listing>)
    requires multiset(xs) == multiset(ys) && DistinctOrgs(xs)
    ensures DistinctOrgs(ys)
    decreases |xs|
  {
    if xs == [] {
      assert |multiset(ys)| == 0;
    } else {
      var p := SameRest(xs, ys);
      var rest := Without(ys, p);
      StillDistinct(xs[1..], rest);
      forall i | 0 <= i < |rest|
        ensures rest[i].org != ys[p].org
      {
        assert rest[i] in multiset(xs[1..]);
      }
      forall i, j | 0 <= i < j < |ys|
        ensures ys[i].org != ys[j].org
      {
        assert i != p ==> ys[i] == rest[if i < p then i else i - 1];
        assert j != p ==> ys[j] == rest[if j < p then j else j - 1];
      }
    }
  }

  /** The map and both counters do not depend on the order of the organizations. */
  lemma {:induction false} OrganizationOrderIsInvisible(c: Ctx, xs: seq<Listing>, ys: seq<Listing>)
    requires multiset(xs) == multiset(ys) && DistinctOrgs(xs) && forall i :: 0 <= i < |xs| ==> Labelled(xs[i])
    ensures RunAll(c, xs) == RunAll(c, ys)
    decreases |xs|
  {
    SameMembers(xs, ys);
    if xs != [] {
      var p := SameRest(xs, ys);
      StillDistinct(xs, ys);
      AnyFirst(c, ys, p);
      OrganizationOrderIsInvisible(Run(c, xs[0].events), xs[1..], Without(ys, p));
    }
  }
}
