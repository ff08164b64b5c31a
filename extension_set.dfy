/** The extension set: which configured paths are loaded, what loading
    them does outside the host, and the unload notices at shutdown.
    `valid` stands for Extension::Valid() on an extension built from a path. */
module ExtensionSet {
  import opened AppTypes

  /** A configured path is disabled when it starts with '#' or '!'. The
      empty path is not: its first character reads as the terminator. */
  predicate IsDisabled(path: string)
    ensures path == [] ==> !IsDisabled(path)
    ensures IsDisabled(path) ==> path[0] == '#' || path[0] == '!'
    ensures |path| > 0 && (path[0] == '#' || path[0] == '!') ==> IsDisabled(path)
  {
    |path| > 0 && (path[0] == '#' || path[0] == '!')
  }

  function FailMessage(path: string): string
  {
    "Failed to load extension: " + path
  }

  lemma FailMessageInjective(p: string, q: string)
    requires FailMessage(p) == FailMessage(q)
    ensures p == q
  {
    var n := |FailMessage("")|;
    assert p == FailMessage(p)[n..];
    assert q == FailMessage(q)[n..];
  }

  /** The extensions appended to the set for a path list, in list order. */
  function Loaded(paths: seq<string>, valid: string -> bool): (r: seq<Ext>)
    ensures |r| <= |paths|
  {
    if paths == [] then []
    else
      var p := paths[0];
      (if !IsDisabled(p) && valid(p) then [Ext(p)] else []) + Loaded(paths[1..], valid)
  }

  /** An extension is loaded exactly when its path is listed, enabled and
      valid. */
  lemma {:induction false} LoadedMembers(paths: seq<string>, valid: string -> bool)
    ensures forall e :: e in Loaded(paths, valid) <==> e.path in paths && !IsDisabled(e.path) && valid(e.path)
  {
    if paths != [] {
      LoadedMembers(paths[1..], valid);
      assert paths == [paths[0]] + paths[1..];
    }
  }

  /** The effects of one path: an extension is constructed unless the path
      is disabled, and an invalid one is logged. */
  function LoadStepEffects(p: string, valid: string -> bool): seq<Effect>
  {
    if IsDisabled(p) then []
    else [ConstructExtension(p)] + (if valid(p) then [] else [Log(FailMessage(p))])
  }

  /** One path has at most two effects and none exactly when it is
      disabled; an enabled path is constructed first, and its failure is
      logged exactly when it is invalid. */
  lemma LoadStepShape(p: string, valid: string -> bool)
    ensures |LoadStepEffects(p, valid)| <= 2
    ensures LoadStepEffects(p, valid) == [] <==> IsDisabled(p)
    ensures !IsDisabled(p) ==> LoadStepEffects(p, valid)[0] == ConstructExtension(p)
    ensures Log(FailMessage(p)) in LoadStepEffects(p, valid) <==> !IsDisabled(p) && !valid(p)
  {
  }

  /** The effects of loading a path list: constructions and failure logs. */
  function LoadEffects(paths: seq<string>, valid: string -> bool): (r: seq<Effect>)
    ensures |r| <= 2 * |paths|
  {
    if paths == [] then []
    else LoadStepEffects(paths[0], valid) + LoadEffects(paths[1..], valid)
  }

  /** Loading only constructs and logs; an extension is constructed exactly
      for each listed path that is not disabled, and the failure of a path
      is logged exactly when that path is enabled but invalid. */
  lemma {:induction false} LoadEffectsMembers(paths: seq<string>, valid: string -> bool)
    ensures forall e :: e in LoadEffects(paths, valid) ==> e.ConstructExtension? || e.Log?
    ensures forall p :: ConstructExtension(p) in LoadEffects(paths, valid) <==> p in paths && !IsDisabled(p)
    ensures forall p :: Log(FailMessage(p)) in LoadEffects(paths, valid) <==>
      p in paths && !IsDisabled(p) && !valid(p)
  {
    if paths != [] {
      LoadEffectsMembers(paths[1..], valid);
      assert paths == [paths[0]] + paths[1..];
      forall p | Log(FailMessage(p)) in LoadStepEffects(paths[0], valid)
        ensures p == paths[0]
      {
        FailMessageInjective(p, paths[0]);
      }
    }
  }

  /** Loading a concatenation loads each part in turn: a failing path never
      stops the batch. */
  lemma {:induction false} LoadedAppend(a: seq<string>, b: seq<string>, valid: string -> bool)
    ensures Loaded(a + b, valid) == Loaded(a, valid) + Loaded(b, valid)
  {
    if a == [] {
      assert a + b == b;
    } else {
      var p := a[0];
      var head := if !IsDisabled(p) && valid(p) then [Ext(p)] else [];
      calc {
        Loaded(a + b, valid);
        { assert (a + b)[0] == p && (a + b)[1..] == a[1..] + b; }
        head + Loaded(a[1..] + b, valid);
        { LoadedAppend(a[1..], b, valid); }
        head + (Loaded(a[1..], valid) + Loaded(b, valid));
        { ConcatAssoc(head, Loaded(a[1..], valid), Loaded(b, valid)); }
        Loaded(a, valid) + Loaded(b, valid);
      }
    }
  }

  /** The effects of a concatenation are those of each part in turn. */
  lemma {:induction false} LoadEffectsAppend(a: seq<string>, b: seq<string>, valid: string -> bool)
    ensures LoadEffects(a + b, valid) == LoadEffects(a, valid) + LoadEffects(b, valid)
  {
    if a == [] {
      assert a + b == b;
    } else {
      var head := LoadStepEffects(a[0], valid);
      calc {
        LoadEffects(a + b, valid);
        { assert (a + b)[0] == a[0] && (a + b)[1..] == a[1..] + b; }
        head + LoadEffects(a[1..] + b, valid);
        { LoadEffectsAppend(a[1..], b, valid); }
        head + (LoadEffects(a[1..], valid) + LoadEffects(b, valid));
        { ConcatAssoc(head, LoadEffects(a[1..], valid), LoadEffects(b, valid)); }
        LoadEffects(a, valid) + LoadEffects(b, valid);
      }
    }
  }

  /** Loading one more path of a list extends the result by that path's
      outcome alone. */
  lemma LoadPrefixStep(paths: seq<string>, i: nat, valid: string -> bool)
    requires i < |paths|
    ensures Loaded(paths[..i + 1], valid) ==
      Loaded(paths[..i], valid) + (if !IsDisabled(paths[i]) && valid(paths[i]) then [Ext(paths[i])] else [])
    ensures LoadEffects(paths[..i + 1], valid) == LoadEffects(paths[..i], valid) + LoadStepEffects(paths[i], valid)
  {
    var p := paths[i];
    assert paths[..i + 1] == paths[..i] + [p];
    assert [p][1..] == [];
    LoadedAppend(paths[..i], [p], valid);
    LoadEffectsAppend(paths[..i], [p], valid);
  }

  /** The number of diagnostic log entries among some effects. */
  function LogCount(effects: seq<Effect>): nat
  {
    if effects == [] then 0
    else (if effects[0].Log? then 1 else 0) + LogCount(effects[1..])
  }

  lemma {:induction false} LogCountAppend(a: seq<Effect>, b: seq<Effect>)
    ensures LogCount(a + b) == LogCount(a) + LogCount(b)
  {
    if a == [] {
      assert a + b == b;
    } else {
      assert (a + b)[1..] == a[1..] + b;
      LogCountAppend(a[1..], b);
    }
  }

  /** The number of extensions constructed among some effects. */
  function ConstructCount(effects: seq<Effect>): nat
  {
    if effects == [] then 0
    else (if effects[0].ConstructExtension? then 1 else 0) + ConstructCount(effects[1..])
  }

  lemma {:induction false} ConstructCountAppend(a: seq<Effect>, b: seq<Effect>)
    ensures ConstructCount(a + b) == ConstructCount(a) + ConstructCount(b)
  {
    if a == [] {
      assert a + b == b;
    } else {
      assert (a + b)[1..] == a[1..] + b;
      ConstructCountAppend(a[1..], b);
    }
  }

  /** Every constructed extension ends up either in the set or in exactly
      one log entry, never both and never neither. */
  lemma {:induction false} LoadAccounting(paths: seq<string>, valid: string -> bool)
    ensures |Loaded(paths, valid)| + LogCount(LoadEffects(paths, valid)) == ConstructCount(LoadEffects(paths, valid))
  {
    if paths != [] {
      var step := LoadStepEffects(paths[0], valid);
      var rest := LoadEffects(paths[1..], valid);
      LoadAccounting(paths[1..], valid);
      LogCountAppend(step, rest);
      ConstructCountAppend(step, rest);
      if !IsDisabled(paths[0]) {
        assert step[1..] == if valid(paths[0]) then [] else [Log(FailMessage(paths[0]))];
      }
    }
  }

  /** Paths that are all enabled and valid are all loaded, in order, with
      no log entry. */
  lemma {:induction false} LoadAllGood(paths: seq<string>, valid: string -> bool)
    requires forall k :: 0 <= k < |paths| ==> !IsDisabled(paths[k]) && valid(paths[k])
    ensures |Loaded(paths, valid)| == |paths|
    ensures forall k :: 0 <= k < |paths| ==> Loaded(paths, valid)[k] == Ext(paths[k])
    ensures LogCount(LoadEffects(paths, valid)) == 0
  {
    if paths != [] {
      LoadAllGood(paths[1..], valid);
      LogCountAppend(LoadStepEffects(paths[0], valid), LoadEffects(paths[1..], valid));
    }
  }

  /** A single enabled path that fails validation: nothing is loaded, one
      construction and one log entry. */
  lemma LoadOneInvalid(bad: string, valid: string -> bool)
    requires !IsDisabled(bad) && !valid(bad)
    ensures Loaded([bad], valid) == []
    ensures LogCount(LoadEffects([bad], valid)) == 1
  {
    assert [bad][1..] == [];
    var effects := [ConstructExtension(bad), Log(FailMessage(bad))];
    assert LoadEffects([bad], valid) == effects;
    assert effects[1..][1..] == [];
    assert LogCount(effects[1..]) == 1;
  }

  /** One enabled invalid path among valid ones: every valid one is loaded,
      the invalid one is not, and exactly one entry is logged. */
  lemma OneInvalidAmongValid(before: seq<string>, bad: string, after: seq<string>, valid: string -> bool)
    requires forall k :: 0 <= k < |before| ==> !IsDisabled(before[k]) && valid(before[k])
    requires forall k :: 0 <= k < |after| ==> !IsDisabled(after[k]) && valid(after[k])
    requires !IsDisabled(bad) && !valid(bad)
    ensures |Loaded(before + [bad] + after, valid)| == |before| + |after|
    ensures Ext(bad) !in Loaded(before + [bad] + after, valid)
    ensures LogCount(LoadEffects(before + [bad] + after, valid)) == 1
  {
    LoadedMembers(before + [bad] + after, valid);
    var mid := before + [bad];
    LoadedAppend(before, [bad], valid);
    LoadedAppend(mid, after, valid);
    LoadEffectsAppend(before, [bad], valid);
    LoadEffectsAppend(mid, after, valid);
    LoadAllGood(before, valid);
    LoadAllGood(after, valid);
    LoadOneInvalid(bad, valid);
    LogCountAppend(LoadEffects(before, valid), LoadEffects([bad], valid));
    LogCountAppend(LoadEffects(mid, valid), LoadEffects(after, valid));
  }

  /** The Unload calls made to the extensions, one each, in insertion order. */
  function UnloadNotices(exts: seq<Ext>): (r: seq<Effect>)
    ensures |r| == |exts|
  {
    if exts == [] then []
    else UnloadNotices(exts[..|exts| - 1]) + [UnloadExtension(exts[|exts| - 1])]
  }

  /** The k-th unload goes to the k-th loaded extension. */
  lemma {:induction false} UnloadNoticesAt(exts: seq<Ext>)
    ensures forall k :: 0 <= k < |exts| ==> UnloadNotices(exts)[k] == UnloadExtension(exts[k])
  {
    if exts != [] {
      var init := exts[..|exts| - 1];
      UnloadNoticesAt(init);
      assert forall k :: 0 <= k < |init| ==> exts[k] == init[k];
    }
  }
}
