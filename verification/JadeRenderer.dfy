/** The operation that renders a page through the render cache. */
module JadeRendering {
  import opened Wrappers
  import opened DataTrees
  import opened ReadObservation
  import opened RenderCaching

  class JadeRenderer {
    const config: Config
    var useCache: bool
    var renderedTemplateCache: map<string, string>
    var valuePaths: set<Path>
    var iteratedPaths: set<Path>

    ghost function Current(): State
      reads this
    {
      State(useCache, valuePaths, iteratedPaths, renderedTemplateCache)
    }

    constructor (config: Config, attemptCache: bool)
      ensures this.config == config && Current() == State(attemptCache, {}, {}, map[])
    {
      this.config := config;
      useCache, renderedTemplateCache, valuePaths, iteratedPaths := attemptCache, map[], {}, {};
    }

    method ReadValues(data: Data) returns (values: seq<(Path, Option<Content>)>)
      ensures values == ValuesAt(data, config.list(valuePaths))
    {
      values := [];
      var paths := config.list(valuePaths);
      for k := 0 to |paths|
        invariant values == ValuesAt(data, paths[..k])
      {
        assert paths[..k + 1][..k] == paths[..k];
        values := values + [(paths[k], PlainOf(DataAt(data, paths[k])))];
      }
      assert paths[..|paths|] == paths;
    }

    method ReadElements(data: Data) returns (keys: seq<seq<Element>>)
      ensures keys == ElementsAt(data, config.list(iteratedPaths))
    {
      keys := [];
      var paths := config.list(iteratedPaths);
      for k := 0 to |paths|
        invariant keys == ElementsAt(data, paths[..k])
      {
        assert paths[..k + 1][..k] == paths[..k];
        keys := keys + [Elements(DataAt(data, paths[k]))];
      }
      assert paths[..|paths|] == paths;
    }

    method CalculateETagFor(data: Data) returns (etag: Option<string>)
      ensures etag == Tag(config, data, valuePaths, iteratedPaths)
    {
      var values := ReadValues(data);
      var keys := ReadElements(data);
      etag := config.fingerprint(Observation(|Elements(Input(config, data))|, values, keys));
    }

    // Renders over an observed map, or not at all when the input is no map.
    method RenderObserved(data: Data) returns (body: Option<string>, values: set<Path>, iterated: set<Path>)
      requires Ready(config, data)
      ensures match Uncached(config, data)
        case Broken => body == None
        case Rendered(text, v, i) => body == Some(text) && values == v && iterated == i
    {
      values, iterated := {}, {};
      var inner := Input(config, data);
      if !inner.Node? {
        return None, values, iterated;
      }
      var observed := new Observed();
      var observedMap := new ReadObservedMap(inner, [], observed);
      body := RenderTemplate(config.template, observedMap);
      values, iterated := observed.valuePaths, observed.iteratedPaths;
    }

    // Adds the paths of one rendering, below the path of the input, and tells whether any is new.
    method NotePaths(values: set<Path>, iterated: set<Path>) returns (changed: bool)
      modifies this`valuePaths, this`iteratedPaths
      ensures valuePaths == old(valuePaths) + Absolute(config, values)
      ensures iteratedPaths == old(iteratedPaths) + Absolute(config, iterated)
      ensures changed <==> valuePaths != old(valuePaths) || iteratedPaths != old(iteratedPaths)
    {
      changed := false;
      var left := values;
      while left != {}
        invariant left <= values && valuePaths == old(valuePaths) + Absolute(config, values - left)
        invariant changed <==> valuePaths != old(valuePaths)
        invariant iteratedPaths == old(iteratedPaths)
      {
        var path :| path in left;
        changed := changed || config.inputPath + path !in valuePaths;
        OneMore(values - left, path);
        assert values - (left - {path}) == (values - left) + {path};
        valuePaths, left := valuePaths + {config.inputPath + path}, left - {path};
      }
      assert values - left == values;
      left := iterated;
      while left != {}
        invariant left <= iterated && iteratedPaths == old(iteratedPaths) + Absolute(config, iterated - left)
        invariant valuePaths == old(valuePaths) + Absolute(config, values)
        invariant changed <==> valuePaths != old(valuePaths) || iteratedPaths != old(iteratedPaths)
      {
        var path :| path in left;
        changed := changed || config.inputPath + path !in iteratedPaths;
        OneMore(iterated - left, path);
        assert iterated - (left - {path}) == (iterated - left) + {path};
        iteratedPaths, left := iteratedPaths + {config.inputPath + path}, left - {path};
      }
      assert iterated - left == iterated;
    }

    lemma OneMore(paths: set<Path>, path: Path)
      ensures Absolute(config, paths + {path}) == Absolute(config, paths) + {config.inputPath + path}
    {
      var more := Absolute(config, paths + {path});
      assert path in paths + {path};
      forall p | p in Absolute(config, paths)
        ensures p in more
      {
        var q :| q in paths && p == config.inputPath + q;
        assert q in paths + {path};
      }
    }

    method Call(r: Request) returns (response: Response)
      requires Ready(config, r.data)
      modifies this
      ensures (Current(), response) == Step(config, old(Current()), r, Uncached(config, r.data))
      ensures var tag := if old(useCache) && config.mainResponse then Tag(config, r.data, valuePaths, iteratedPaths)
                         else None;
              && (response.NotModified? <==> tag == Some(r.ifNoneMatch))
              && (response.Page? ==> response.etag == tag)
    {
      StepTags(config, Current(), r, Uncached(config, r.data));
      hide Tag, Uncached, Ready;
      if useCache {
        response := RunWithCache(r);
      } else {
        var body, _, _ := RenderObserved(r.data);
        response := if body.Some? then Page(body.value, None) else Failure;
      }
    }

    method RunWithCache(r: Request) returns (response: Response)
      requires Ready(config, r.data) && useCache
      modifies this
      ensures (Current(), response) == Step(config, old(Current()), r, Uncached(config, r.data))
    {
      hide Uncached, Tag, Absolute, Ready;
      ghost var page := Uncached(config, r.data);
      var etag := CalculateETagFor(r.data);
      if etag.None? {
        useCache := false;
      }
      if etag.Some? && config.mainResponse && etag.value == r.ifNoneMatch {
        return NotModified;
      }
      var renderedTemplate: string;
      if etag.Some? && etag.value in renderedTemplateCache {
        renderedTemplate := renderedTemplateCache[etag.value];
      } else {
        var body, values, iterated := RenderObserved(r.data);
        if body.None? {
          return Failure;
        }
        renderedTemplate := body.value;
        if etag.Some? {
          renderedTemplateCache := renderedTemplateCache[etag.value := renderedTemplate];
        }
        var changed := NotePaths(values, iterated);
        if changed {
          etag := CalculateETagFor(r.data);
        }
      }
      if etag.Some? {
        if config.mainResponse && etag.value == r.ifNoneMatch {
          return NotModified;
        }
        response := Page(renderedTemplate, if config.mainResponse then etag else None);
      } else {
        response := Page(renderedTemplate, None);
      }
    }
  }
}
