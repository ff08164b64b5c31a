/** The event-sink registry: removal with std::list::remove semantics and
    the notices a broadcast sends to the registered sinks. */
module EventSinks {
  import opened AppTypes

  /** The registry after std::list::remove(s): every entry equal to `s` is
      dropped, the others stay in their order. */
  function Without(sinks: seq<Sink>, s: Sink): (r: seq<Sink>)
    ensures s !in r
    ensures forall x :: x in r <==> x in sinks && x != s
    ensures |r| <= |sinks|
  {
    if sinks == [] then []
    else if sinks[0] == s then Without(sinks[1..], s)
    else [sinks[0]] + Without(sinks[1..], s)
  }

  /** Removing from a concatenation removes from each part; in particular
      the order of the remaining sinks is kept. */
  lemma {:induction false} WithoutAppend(a: seq<Sink>, b: seq<Sink>, s: Sink)
    ensures Without(a + b, s) == Without(a, s) + Without(b, s)
  {
    if a == [] {
      assert a + b == b;
    } else {
      assert (a + b)[1..] == a[1..] + b;
      WithoutAppend(a[1..], b, s);
    }
  }

  /** Removing a sink that is not registered changes nothing. */
  lemma {:induction false} WithoutAbsent(sinks: seq<Sink>, s: Sink)
    requires s !in sinks
    ensures Without(sinks, s) == sinks
  {
    if sinks != [] {
      WithoutAbsent(sinks[1..], s);
    }
  }

  /** Every other sink keeps its number of registrations. */
  lemma {:induction false} WithoutKeepsOthers(sinks: seq<Sink>, s: Sink, x: Sink)
    requires x != s
    ensures multiset(Without(sinks, s))[x] == multiset(sinks)[x]
  {
    if sinks != [] {
      WithoutKeepsOthers(sinks[1..], s, x);
      assert sinks == [sinks[0]] + sinks[1..];
    }
  }

  /** A sink registered twice and removed once is no longer registered at
      all: std::list::remove drops both entries. */
  lemma AddTwiceRemoveOnce(sinks: seq<Sink>, s: Sink)
    ensures Without(sinks + [s] + [s], s) == Without(sinks, s)
  {
    WithoutAppend(sinks, [s] + [s], s);
    assert sinks + [s] + [s] == sinks + ([s] + [s]);
    assert Without([s] + [s], s) == [];
  }

  /** The OnAppClose calls made to the sinks, one per entry, in order. */
  function CloseNotices(sinks: seq<Sink>): (r: seq<Effect>)
    ensures |r| == |sinks|
  {
    if sinks == [] then []
    else CloseNotices(sinks[..|sinks| - 1]) + [AppClose(sinks[|sinks| - 1])]
  }

  /** The k-th close notice goes to the k-th registered sink. */
  lemma {:induction false} CloseNoticesAt(sinks: seq<Sink>)
    ensures forall k :: 0 <= k < |sinks| ==> CloseNotices(sinks)[k] == AppClose(sinks[k])
  {
    if sinks != [] {
      var init := sinks[..|sinks| - 1];
      CloseNoticesAt(init);
      assert forall k :: 0 <= k < |init| ==> sinks[k] == init[k];
    }
  }

  /** The OnNewDocument(doc) calls made to the sinks, one per entry, in
      order. */
  function DocNotices(sinks: seq<Sink>, doc: Document): (r: seq<Effect>)
    ensures |r| == |sinks|
  {
    if sinks == [] then []
    else DocNotices(sinks[..|sinks| - 1], doc) + [NewDocumentNotice(sinks[|sinks| - 1], doc)]
  }

  /** The k-th new-document notice goes to the k-th registered sink, and
      every notice carries the same document. */
  lemma {:induction false} DocNoticesAt(sinks: seq<Sink>, doc: Document)
    ensures forall k :: 0 <= k < |sinks| ==> DocNotices(sinks, doc)[k] == NewDocumentNotice(sinks[k], doc)
  {
    if sinks != [] {
      var init := sinks[..|sinks| - 1];
      DocNoticesAt(init, doc);
      assert forall k :: 0 <= k < |init| ==> sinks[k] == init[k];
    }
  }

  /** A removed sink hears no further notices, however often it had been
      registered. */
  lemma RemovedSinkHearsNothing(sinks: seq<Sink>, s: Sink)
    ensures AppClose(s) !in CloseNotices(Without(sinks, s))
    ensures forall d :: NewDocumentNotice(s, d) !in DocNotices(Without(sinks, s), d)
  {
    var rest := Without(sinks, s);
    CloseNoticesAt(rest);
    forall d ensures NewDocumentNotice(s, d) !in DocNotices(rest, d) {
      DocNoticesAt(rest, d);
    }
  }
}
