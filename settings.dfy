/** The two small helpers of `git_big_picture/_main.py` around the graph:
    merging settings from defaults, the git configuration and the command
    line, and guessing the output format from a file name. */
module Settings {
  import opened Builtins

  /** A settings dict (setting name -> value, `None` when not given), or
      `None` for a source that is skipped altogether. */
  type Container<V> = Option<map<string, Option<V>>>

  /** `container[setting]` can be read for every setting: the source
      indexes each present container without a guard. */
  predicate Provides<V>(container: Container<V>, settings: seq<string>)
  {
    container.Some? ==> forall s :: s in settings ==> s in container.value
  }

  predicate Sets<V>(container: Container<V>, s: string)
  {
    container.Some? && s in container.value && container.value[s].Some?
  }

  /** The value the latest source in `sources` gives to `s`. */
  function LastSet<V>(s: string, sources: seq<Container<V>>): Option<V>
    decreases |sources|
  {
    if sources == [] then None
    else if Sets(sources[|sources| - 1], s) then sources[|sources| - 1].value[s]
    else LastSet(s, sources[..|sources| - 1])
  }

  /** `LastSet` picks the value of a source that sets `s` with no later
      source setting it, and is `None` exactly when no source sets it. */
  lemma {:induction false} LastSetIsLatest<V>(s: string, sources: seq<Container<V>>)
    ensures LastSet(s, sources).None? <==> forall i :: 0 <= i < |sources| ==> !Sets(sources[i], s)
    ensures LastSet(s, sources).Some? ==>
              exists i :: 0 <= i < |sources| && Sets(sources[i], s) && sources[i].value[s] == LastSet(s, sources)
                          && forall j :: i < j < |sources| ==> !Sets(sources[j], s)
    decreases |sources|
  {
    if sources != [] {
      var n := |sources| - 1;
      var init := sources[..n];
      LastSetIsLatest(s, init);
      assert forall i :: 0 <= i < n ==> init[i] == sources[i];
      if !Sets(sources[n], s) && LastSet(s, init).Some? {
        var i :| 0 <= i < |init| && Sets(init[i], s) && init[i].value[s] == LastSet(s, init)
                 && forall j :: i < j < |init| ==> !Sets(init[j], s);
        assert Sets(sources[i], s) && sources[i].value[s] == LastSet(s, sources);
      }
    }
  }

  /** `set_settings`: for each setting, walk defaults, configuration and
      command line in that order, skip the absent ones, and keep the last
      value that is not `None`. */
  method SetSettings<V>(settings: seq<string>, defaults: Container<V>, conf: Container<V>, cli: Container<V>)
    returns (output: map<string, Option<V>>)
    requires Provides(defaults, settings) && Provides(conf, settings) && Provides(cli, settings)
    ensures output.Keys == Elems(settings)
    ensures forall s :: s in output ==> output[s] == LastSet(s, [defaults, conf, cli])
  {
    var order := [defaults, conf, cli];
    output := map[];
    for k := 0 to |settings|
      invariant output.Keys == Elems(settings[..k])
      invariant forall s :: s in output ==> output[s] == LastSet(s, order)
    {
      var setting := settings[k];
      var val: Option<V> := None;
      for j := 0 to |order|
        invariant val == LastSet(setting, order[..j])
      {
        var container := order[j];
        assert order[..j + 1][..j] == order[..j];
        if container.Some? {
          if container.value[setting].Some? {
            val := container.value[setting];
          }
        }
      }
      assert order[..|order|] == order;
      ElemsPrefixStep(settings, k);
      output := output[setting := val];
    }
    assert settings[..|settings|] == settings;
  }

  /** The command line overrides the configuration, which overrides the
      defaults. */
  lemma Precedence<V>(s: string, defaults: Container<V>, conf: Container<V>, cli: Container<V>)
    ensures Sets(cli, s) ==> LastSet(s, [defaults, conf, cli]) == cli.value[s]
    ensures !Sets(cli, s) && Sets(conf, s) ==> LastSet(s, [defaults, conf, cli]) == conf.value[s]
    ensures !Sets(cli, s) && !Sets(conf, s) ==> LastSet(s, [defaults, conf, cli]) == LastSet(s, [defaults])
  {
    assert [defaults, conf, cli][..2] == [defaults, conf];
    assert [defaults, conf][..1] == [defaults];
  }

  // ---------------------------------------------------------------------
  // guess_format_from_filename

  /** `s.split('.')[-1]`: the text after the last dot, or all of `s`. */
  function TextAfterLastDot(s: string): (r: string)
    ensures |r| <= |s| && s[|s| - |r|..] == r
    ensures '.' !in r
    ensures '.' in s ==> |r| < |s| && s[|s| - |r| - 1] == '.'
    ensures '.' !in s ==> r == s
    decreases |s|
  {
    if s == [] then []
    else if s[|s| - 1] == '.' then []
    else
      var init := s[..|s| - 1];
      assert s == init + [s[|s| - 1]];
      TextAfterLastDot(init) + [s[|s| - 1]]
  }

  /** `guess_format_from_filename`: whether the name has a suffix, and the
      suffix: the dot-free text after the name's last dot. */
  function GuessFormatFromFilename(outputFile: string): (r: (bool, Option<string>))
    ensures r.0 <==> '.' in outputFile
    ensures r.1.Some? <==> r.0
    ensures r.1.Some? ==>
              var ext := r.1.value;
              '.' !in ext && |ext| < |outputFile|
              && outputFile[|outputFile| - |ext| - 1] == '.' && outputFile[|outputFile| - |ext|..] == ext
  {
    if '.' in outputFile then (true, Some(TextAfterLastDot(outputFile))) else (false, None)
  }

  /** A name made of a base, a dot and a dot-free extension is guessed to
      have that extension; a name without a dot has no guess. */
  lemma GuessFormatFindsExtension(base: string, ext: string)
    requires '.' !in ext
    ensures GuessFormatFromFilename(base + "." + ext) == (true, Some(ext))
    ensures '.' !in base ==> GuessFormatFromFilename(base) == (false, None)
  {
    var name := base + "." + ext;
    assert name[|base|] == '.';
    assert name[|base| + 1..] == ext;
  }
}
