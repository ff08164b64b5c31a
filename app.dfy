/** The App facade: the extension set, the event-sink registry, the command
    router and the start-up, clear-user-data and shutdown sequences.
    Filesystem and extension outcomes are parameters: `created` is whether
    CreateDirectoryRecursive succeeds, `deleted` whether DeleteDirectory
    succeeds, `valid` whether an extension built from a path is valid. */
module ExtApp {
  import opened AppTypes
  import opened CommandRouter
  import opened EventSinks
  import opened ExtensionSet

  /** ensureUserSettingsDir: create the directory, reporting a failure as
      unexpected. */
  function EnsureDirEffects(created: bool): (r: seq<Effect>)
    ensures 1 <= |r| <= 2 && r[0] == CreateUserSettingsDir
    ensures Unexpected(CreateDirFailed) in r <==> !created
  {
    [CreateUserSettingsDir] + (if created then [] else [Unexpected(CreateDirFailed)])
  }

  /** The releases that follow unloading at shutdown, in order. */
  const Releases: seq<Effect> := [DeleteSettings, DeleteAllDeferred, ReleaseOptions, DeleteDispatch]

  predicate IsRelease(e: Effect)
  {
    e.DeleteSettings? || e.DeleteAllDeferred? || e.ReleaseOptions? || e.DeleteDispatch?
  }

  /** Everything shutdown does, given the registered sinks and the loaded
      extensions. */
  function ShutdownEffects(sinks: seq<Sink>, exts: seq<Ext>): (r: seq<Effect>)
    ensures |r| == |sinks| + |exts| + 4
  {
    CloseNotices(sinks) + UnloadNotices(exts) + Releases
  }

  /** Which stage of shutdown an effect belongs to: sink notices, then
      unloads, then releases; anything else is not part of shutdown. */
  function Stage(e: Effect): nat
  {
    if e.AppClose? then 0
    else if e.UnloadExtension? then 1
    else if IsRelease(e) then 2
    else 3
  }

  /** Shutdown tells the sinks in registration order, then unloads the
      extensions in insertion order, then performs the four releases. */
  lemma ShutdownSequence(sinks: seq<Sink>, exts: seq<Ext>)
    ensures |ShutdownEffects(sinks, exts)| == |sinks| + |exts| + 4
    ensures forall k :: 0 <= k < |sinks| ==> ShutdownEffects(sinks, exts)[k] == AppClose(sinks[k])
    ensures forall k :: 0 <= k < |exts| ==>
      ShutdownEffects(sinks, exts)[|sinks| + k] == UnloadExtension(exts[k])
    ensures forall k :: 0 <= k < 4 ==> ShutdownEffects(sinks, exts)[|sinks| + |exts| + k] == Releases[k]
  {
    var n, m := |sinks|, |exts|;
    var closing, unloading := CloseNotices(sinks), UnloadNotices(exts);
    var t := closing + unloading + Releases;
    CloseNoticesAt(sinks);
    UnloadNoticesAt(exts);
    assert forall k :: 0 <= k < n ==> t[k] == closing[k];
    assert forall k :: 0 <= k < m ==> t[n + k] == unloading[k];
    assert forall k :: 0 <= k < 4 ==> t[n + m + k] == Releases[k];
  }

  /** Shutdown never goes back a stage: every OnAppClose comes before any
      Unload, and both come before settings, options or dispatch are
      released. */
  lemma ShutdownOrder(sinks: seq<Sink>, exts: seq<Ext>)
    ensures forall k :: 0 <= k < |ShutdownEffects(sinks, exts)| ==> Stage(ShutdownEffects(sinks, exts)[k]) < 3
    ensures forall i, j :: 0 <= i <= j < |ShutdownEffects(sinks, exts)| ==>
      Stage(ShutdownEffects(sinks, exts)[i]) <= Stage(ShutdownEffects(sinks, exts)[j])
  {
    var n, m := |sinks|, |exts|;
    var t := ShutdownEffects(sinks, exts);
    ShutdownSequence(sinks, exts);
    forall k | 0 <= k < |t|
      ensures Stage(t[k]) == if k < n then 0 else if k < n + m then 1 else 2
    {
      if k < n {
      } else if k < n + m {
        assert t[n + (k - n)] == UnloadExtension(exts[k - n]);
      } else {
        assert t[n + m + (k - n - m)] == Releases[k - n - m];
      }
    }
  }

  class App {
    /** m_exts: the loaded extensions, in load order. */
    var exts: seq<Ext>
    /** m_sinks: the registered event sinks, in registration order. */
    var sinks: seq<Sink>
    /** m_bCanLoadExtensions: false in safe mode. */
    var canLoad: bool
    /** The calls made so far into collaborators outside the App. */
    var effects: seq<Effect>

    /** Start-up: string loader, settings, options, the user settings
        directory, then the options cache. */
    constructor (created: bool)
      ensures exts == [] && sinks == [] && canLoad
      ensures effects ==
        [InitStringLoader, CreateSettings, CreateOptions] + EnsureDirEffects(created) + [LoadOptionsCache]
    {
      exts, sinks, canLoad := [], [], true;
      effects := [InitStringLoader, CreateSettings, CreateOptions];
      new;
      EnsureUserSettingsDir(created);
      effects := effects + [LoadOptionsCache];
    }

    method EnsureUserSettingsDir(created: bool)
      modifies this`effects
      ensures effects == old(effects) + EnsureDirEffects(created)
    {
      effects := effects + [CreateUserSettingsDir];
      if !created {
        effects := effects + [Unexpected(CreateDirFailed)];
      }
    }

    /** Init: load the schemes and build the command dispatcher; extensions
        are loaded separately. */
    method Init()
      modifies this`effects
      ensures effects == old(effects) + [LoadSchemes, CreateDispatch]
    {
      effects := effects + [LoadSchemes, CreateDispatch];
    }

    method SetCanLoadExtensions(allowed: bool)
      modifies this`canLoad
      ensures canLoad == allowed
    {
      canLoad := allowed;
    }

    /** Loads the configured extensions: in safe mode nothing happens;
        otherwise each enabled path is constructed, the valid ones are
        appended in list order and each invalid one is logged once. */
    method LoadExtensions(paths: seq<string>, valid: string -> bool)
      modifies this`exts, this`effects
      ensures !canLoad ==> exts == old(exts) && effects == old(effects)
      ensures canLoad ==> exts == old(exts) + Loaded(paths, valid)
      ensures canLoad ==> effects == old(effects) + LoadEffects(paths, valid)
    {
      if !canLoad {
        return;
      }
      ghost var initialExts, initialEffects := exts, effects;
      var i := 0;
      while i < |paths|
        invariant 0 <= i <= |paths|
        invariant exts == initialExts + Loaded(paths[..i], valid)
        invariant effects == initialEffects + LoadEffects(paths[..i], valid)
      {
        var path := paths[i];
        ghost var exts0, effects0 := exts, effects;
        // an empty std::string yields its terminator at index 0
        var first := if |path| > 0 then path[0] else '\0';
        assert IsDisabled(path) <==> first == '#' || first == '!';
        if first != '#' && first != '!' {
          effects := effects + [ConstructExtension(path)];
          if valid(path) {
            exts := exts + [Ext(path)];
          } else {
            effects := effects + [Log(FailMessage(path))];
            ConcatAssoc(effects0, [ConstructExtension(path)], [Log(FailMessage(path))]);
          }
        }
        ghost var added := if !IsDisabled(path) && valid(path) then [Ext(path)] else [];
        ghost var happened := LoadStepEffects(path, valid);
        assert exts == exts0 + added;
        assert effects == effects0 + happened;
        LoadPrefixStep(paths, i, valid);
        ConcatAssoc(initialExts, Loaded(paths[..i], valid), added);
        ConcatAssoc(initialEffects, LoadEffects(paths[..i], valid), happened);
        i := i + 1;
      }
      assert paths[..i] == paths;
    }

    /** Runs "<runner-id>:<payload>": no colon does nothing, runner "ext"
        is unexpected, any other runner runs the whole command as a script. */
    method RunExtensionCommand(command: string)
      modifies this`effects
      ensures ':' !in command ==> effects == old(effects)
      ensures |command| >= 4 && command[..4] == "ext:" ==>
        effects == old(effects) + [Unexpected(NotYetImplemented)]
      ensures ':' in command && !(|command| >= 4 && command[..4] == "ext:") ==>
        effects == old(effects) + [RunScript(command)]
    {
      var index := FindFirst(command, ':');
      if index.None? {
        assert Route(command) == Ignore;
        return;
      }
      var runnerId := command[..index.value];
      assert Route(command) == (if runnerId == ExtRunner then Reserved else Script(command));
      if runnerId == ExtRunner {
        effects := effects + [Unexpected(NotYetImplemented)];
      } else {
        effects := effects + [RunScript(command)];
      }
    }

    /** Wipes the user settings directory; on failure reports it and stops,
        otherwise clears the interface settings and recreates the directory. */
    method ClearUserData(deleted: bool, created: bool) returns (ok: bool)
      modifies this`effects
      ensures ok == deleted
      ensures !deleted ==> effects == old(effects) + [DeleteUserSettingsDir, Unexpected(DeleteDirFailed)]
      ensures deleted ==>
        effects == old(effects) + [DeleteUserSettingsDir, ClearInterfaceSettings] + EnsureDirEffects(created)
    {
      effects := effects + [DeleteUserSettingsDir];
      if !deleted {
        effects := effects + [Unexpected(DeleteDirFailed)];
        return false;
      }
      effects := effects + [ClearInterfaceSettings];
      EnsureUserSettingsDir(created);
      return true;
    }

    /** Tells every sink OnAppClose, then unloads every extension in
        insertion order, then empties the set. */
    method UnloadExtensions()
      modifies this`exts, this`effects
      ensures exts == [] && sinks == old(sinks)
      ensures effects == old(effects) + CloseNotices(sinks) + UnloadNotices(old(exts))
    {
      var i := 0;
      while i < |sinks|
        invariant 0 <= i <= |sinks|
        invariant exts == old(exts)
        invariant effects == old(effects) + CloseNotices(sinks[..i])
      {
        assert sinks[..i + 1][..i] == sinks[..i];
        ConcatAssoc(old(effects), CloseNotices(sinks[..i]), [AppClose(sinks[i])]);
        effects := effects + [AppClose(sinks[i])];
        i := i + 1;
      }
      assert sinks[..i] == sinks;
      ghost var closed := effects;
      var j := 0;
      while j < |exts|
        invariant 0 <= j <= |exts|
        invariant exts == old(exts)
        invariant effects == closed + UnloadNotices(exts[..j])
      {
        assert exts[..j + 1][..j] == exts[..j];
        ConcatAssoc(closed, UnloadNotices(exts[..j]), [UnloadExtension(exts[j])]);
        effects := effects + [UnloadExtension(exts[j])];
        j := j + 1;
      }
      assert exts[..j] == exts;
      exts := [];
    }

    method AddEventSink(sink: Sink)
      modifies this`sinks
      ensures sinks == old(sinks) + [sink]
    {
      sinks := sinks + [sink];
    }

    /** std::list::remove: drops every registration of `sink`. */
    method RemoveEventSink(sink: Sink)
      modifies this`sinks
      ensures sinks == Without(old(sinks), sink)
    {
      sinks := Without(sinks, sink);
    }

    /** Tells every sink, in order, about the new document. */
    method OnNewDocument(doc: Document)
      modifies this`effects
      ensures effects == old(effects) + DocNotices(sinks, doc)
    {
      var i := 0;
      while i < |sinks|
        invariant 0 <= i <= |sinks|
        invariant effects == old(effects) + DocNotices(sinks[..i], doc)
      {
        assert sinks[..i + 1][..i] == sinks[..i];
        ConcatAssoc(old(effects), DocNotices(sinks[..i], doc), [NewDocumentNotice(sinks[i], doc)]);
        effects := effects + [NewDocumentNotice(sinks[i], doc)];
        i := i + 1;
      }
      assert sinks[..i] == sinks;
    }

    /** Shutdown (the destructor): unload extensions, then release settings,
        the deferred-deletion registry, the options and the dispatcher. */
    method Deinit()
      modifies this`exts, this`effects
      ensures exts == [] && sinks == old(sinks)
      ensures effects == old(effects) + ShutdownEffects(sinks, old(exts))
    {
      UnloadExtensions();
      effects := effects + Releases;
    }
  }
}
