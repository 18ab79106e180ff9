/**
 `getSharedStateSet` (src/labels.cpp:213-251): a get-or-load cache of icon
 render states keyed by texture file name. The image loader is a parameter
 `load` from a path to an optional resource of the opaque type `R`; building
 the texture, blend and lighting state around a loaded image is part of
 producing the resource and is not modelled.
 */
module TextureCache {

  import opened Wrappers

  /** Icon textures are loaded from this directory. */
  const TextureRoot: string := "images/labelsTextures/"

  /**
   The outcome of one lookup: the resource handed back (`None` is the
   `nullptr` result), the cache afterwards, and whether the loader was called.
   */
  datatype Lookup<R> = Lookup(found: Option<R>, cache: map<string, R>, loaded: bool)

  /** `getSharedStateSet(filename, cache)`. */
  function GetShared<R>(key: string, cache: map<string, R>, load: string -> Option<R>): (res: Lookup<R>)
    ensures key == "" ==> res.found.None? && !res.loaded && res.cache == cache
    ensures key != "" && key in cache ==> !res.loaded && res.found == Some(cache[key])
    ensures res.loaded <==> key != "" && key !in cache
    ensures res.loaded ==> res.found == load(TextureRoot + key)
    ensures res.cache.Keys == if res.loaded && res.found.Some? then cache.Keys + {key} else cache.Keys
    ensures forall k :: k in cache ==> k in res.cache && res.cache[k] == cache[k]
    ensures res.found.Some? ==> key in res.cache && res.cache[key] == res.found.value
    ensures res.found.None? ==> res.cache == cache
  {
    if key == "" then Lookup(None, cache, false)
    else if key in cache then Lookup(Some(cache[key]), cache, false)
    else match load(TextureRoot + key)
      case None => Lookup(None, cache, true)
      case Some(r) => Lookup(Some(r), cache[key := r], true)
  }

  /** Every cached entry is what the loader gives for its key. */
  ghost predicate Faithful<R>(cache: map<string, R>, load: string -> Option<R>) {
    forall k :: k in cache ==> load(TextureRoot + k) == Some(cache[k])
  }

  /**
   The cache is transparent: over a faithful cache a lookup answers what a
   fresh load would, and the cache stays faithful.
   */
  lemma LookupTransparent<R>(key: string, cache: map<string, R>, load: string -> Option<R>)
    requires Faithful(cache, load)
    ensures GetShared(key, cache, load).found == if key == "" then None else load(TextureRoot + key)
    ensures Faithful(GetShared(key, cache, load).cache, load)
  {
  }

  /**
   Load once, reuse many: after a lookup that found a resource, looking the
   same key up again hands back the very same resource without calling the
   loader and without changing the cache.
   */
  lemma SecondLookupReuses<R>(key: string, cache: map<string, R>, load: string -> Option<R>)
    requires GetShared(key, cache, load).found.Some?
    ensures var first := GetShared(key, cache, load);
            var second := GetShared(key, first.cache, load);
            && second.found == first.found
            && !second.loaded
            && second.cache == first.cache
  {
  }

  /** A run of lookups in order, threading the cache; the final cache. */
  function LookupAll<R>(keys: seq<string>, cache: map<string, R>, load: string -> Option<R>): map<string, R>
  {
    if keys == [] then cache else LookupAll(keys[1..], GetShared(keys[0], cache, load).cache, load)
  }

  /**
   Over any run of lookups the cache only grows, keeps every earlier entry,
   and gains only keys that were looked up.
   */
  lemma {:induction false} LookupAllGrows<R>(keys: seq<string>, cache: map<string, R>, load: string -> Option<R>)
    ensures var final := LookupAll(keys, cache, load);
            && (forall k :: k in cache ==> k in final && final[k] == cache[k])
            && (forall k :: k in final ==> k in cache || k in keys)
  {
    if keys != [] {
      var next := GetShared(keys[0], cache, load).cache;
      LookupAllGrows(keys[1..], next, load);
    }
  }
}
