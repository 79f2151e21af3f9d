/**
  The emote resolver, `searchEmote`: a cache-first lookup keyed by the lower-cased name.
  On a miss the directory is asked for the one best exact match; a usable answer becomes an
  `EmoteRef` whose image URL is the host URL, a slash, and the file `2x.webp` when the host
  lists one, else the first listed file. That entry is stored under the lower-cased key.
  A missing item, a failed request, an unreadable response or an empty file list all give
  "absent" and store nothing.
 */
module Resolver {
  import opened Wrappers
  import opened Strings
  import opened Shortcode

  /** What a resolution yields and the cache stores: `{ name, imageUrl }`. */
  datatype EmoteRef = EmoteRef(name: string, imageUrl: string)

  /** One record of the directory's answer, with the fields the query selects. */
  datatype File = File(name: string, format: string, width: int, height: int)
  datatype Host = Host(url: string, files: seq<File>)
  datatype EmoteRecord = EmoteRecord(id: string, name: string, owner: string, host: Host)

  /**
    The directory, seen from the script: the `data.emotes.items` of the answer to a request
    for a query string, or None when the request fails, the body is not JSON, or that path
    is missing.
   */
  type Api = string -> Option<seq<EmoteRecord>>

  /** The cache: lower-cased shortcode name to the emote it resolved to. */
  type Cache = map<string, EmoteRef>

  const PreferredFile: string := "2x.webp"

  /** `files.find(f => f.name === fileName)`: the first file with that name. */
  function FindFile(files: seq<File>, fileName: string): (r: Option<File>)
    ensures r.Some? <==> exists f :: f in files && f.name == fileName
    ensures r.Some? ==> r.value in files && r.value.name == fileName
    ensures r.Some? ==> exists i :: 0 <= i < |files| && files[i] == r.value && forall j :: 0 <= j < i ==> files[j].name != fileName
  {
    if files == [] then None
    else if files[0].name == fileName then Some(files[0])
    else
      var r := FindFile(files[1..], fileName);
      assert forall f :: f in files && f != files[0] ==> f in files[1..];
      assert r.Some? ==> exists i :: 1 <= i < |files| && files[i] == r.value && forall j :: 0 <= j < i ==> files[j].name != fileName by {
        if r.Some? {
          var i :| 0 <= i < |files[1..]| && files[1..][i] == r.value && forall j :: 0 <= j < i ==> files[1..][j].name != fileName;
          assert files[i + 1] == r.value;
          assert forall j :: 0 <= j < i + 1 ==> files[j].name != fileName by {
            forall j | 0 <= j < i + 1 ensures files[j].name != fileName {
              if j > 0 { assert files[j] == files[1..][j - 1]; }
            }
          }
        }
      }
      r
  }

  /** The file name for the image URL: `2x.webp` when some file has that name, else the first file's name. */
  function ChooseFile(files: seq<File>): (r: string)
    requires |files| > 0
    ensures (exists f :: f in files && f.name == PreferredFile) ==> r == PreferredFile
    ensures !(exists f :: f in files && f.name == PreferredFile) ==> r == files[0].name
  {
    match FindFile(files, PreferredFile)
    case Some(f) => f.name
    case None => files[0].name
  }

  /**
    The network half of `searchEmote`: the first returned item turned into an `EmoteRef`.
    No item, or a failed request, gives None; an item whose host lists no file makes
    `files[0].name` throw, which the `catch` turns into None as well.
   */
  function FetchEmote(api: Api, emoteName: string): Option<EmoteRef>
  {
    match api(emoteName)
    case None => None
    case Some(items) =>
      if |items| == 0 || |items[0].host.files| == 0 then None
      else Some(EmoteRef(items[0].name, items[0].host.url + "/" + ChooseFile(items[0].host.files)))
  }

  /** What `searchEmote(emoteName)` returns when it reads `cache`. */
  function Lookup(cache: Cache, emoteName: string, api: Api): Option<EmoteRef>
  {
    var key := Lower(emoteName);
    if key in cache then Some(cache[key]) else FetchEmote(api, emoteName)
  }

  /** Whether `searchEmote(emoteName)` reading `cache` sends a request. */
  predicate Misses(cache: Cache, emoteName: string)
  {
    Lower(emoteName) !in cache
  }

  /** The cache after the answer to a request for `emoteName` arrives: the entry is written on success only. */
  function Store(cache: Cache, emoteName: string, api: Api): Cache
  {
    match FetchEmote(api, emoteName)
    case Some(e) => cache[Lower(emoteName) := e]
    case None => cache
  }

  /** The cache after the answers to `names` have arrived, in that order. */
  function Settle(cache: Cache, names: seq<string>, api: Api): Cache
    decreases |names|
  {
    if names == [] then cache
    else Store(Settle(cache, names[..|names| - 1], api), names[|names| - 1], api)
  }

  /** `getEmoteFromContent(text)` reading `cache`: only a whole-token shortcode is looked up, by its inner name. */
  function ContentLookup(cache: Cache, text: string, api: Api): Option<EmoteRef>
  {
    match EmoteName(text)
    case None => None
    case Some(name) => Lookup(cache, name, api)
  }

  /** A stored key is never removed and its entry never changes. */
  ghost predicate Extends(before: Cache, after: Cache)
  {
    forall k :: k in before ==> k in after && after[k] == before[k]
  }

  /** A hit returns the stored entry, whatever the directory would say. */
  lemma LookupHit(cache: Cache, emoteName: string, api: Api)
    requires Lower(emoteName) in cache
    ensures Lookup(cache, emoteName, api) == Some(cache[Lower(emoteName)])
  {
  }

  /**
    A successful miss yields the first item's name and the host URL joined to the preferred
    file, and stores exactly that under the lower-cased key; any other miss stores nothing.
   */
  lemma MissStores(cache: Cache, emoteName: string, api: Api)
    requires Misses(cache, emoteName)
    ensures var r := Lookup(cache, emoteName, api);
      && (r.Some? <==> api(emoteName).Some? && |api(emoteName).value| > 0 && |api(emoteName).value[0].host.files| > 0)
      && (r.Some? ==>
            var item := api(emoteName).value[0];
            && r.value.name == item.name
            && ((exists f :: f in item.host.files && f.name == PreferredFile) ==> r.value.imageUrl == item.host.url + "/2x.webp")
            && (!(exists f :: f in item.host.files && f.name == PreferredFile) ==> r.value.imageUrl == item.host.url + "/" + item.host.files[0].name)
            && Store(cache, emoteName, api) == cache[Lower(emoteName) := r.value])
      && (r.None? ==> Store(cache, emoteName, api) == cache)
  {
  }

  /** Writing an answer only ever adds or rewrites the key of the name asked for. */
  lemma {:induction false} SettleExtends(cache: Cache, names: seq<string>, api: Api)
    requires forall i :: 0 <= i < |names| ==> Misses(cache, names[i])
    ensures Extends(cache, Settle(cache, names, api))
    ensures forall k :: k in Settle(cache, names, api) ==> k in cache || exists i :: 0 <= i < |names| && k == Lower(names[i])
    decreases |names|
  {
    if names != [] {
      var front := names[..|names| - 1];
      SettleExtends(cache, front, api);
      var last := names[|names| - 1];
      var before := Settle(cache, front, api);
      assert Lower(last) !in cache;
      forall k | k in Settle(cache, names, api)
        ensures k in cache || exists i :: 0 <= i < |names| && k == Lower(names[i])
      {
        if k != Lower(last) {
          assert k in before;
          if k !in cache {
            var i :| 0 <= i < |front| && k == Lower(front[i]);
            assert names[i] == front[i];
          }
        }
      }
    }
  }

  /** Once a name has resolved, resolving it again, in any letter case and whatever the directory now says, yields the same entry. */
  lemma ResolveStable(cache: Cache, emoteName: string, again: string, api: Api, later: Api)
    requires Lookup(cache, emoteName, api).Some?
    requires Lower(again) == Lower(emoteName)
    ensures var after := if Misses(cache, emoteName) then Store(cache, emoteName, api) else cache;
      Lookup(after, again, later) == Lookup(cache, emoteName, api)
  {
  }

  /** The resolver, owning the cache that `searchEmote` reads and writes in place. */
  class EmoteResolver {
    var cache: Cache
    /** The names sent to the directory so far, in order. */
    ghost var requests: seq<string>

    /** The cache as loaded at start-up. */
    constructor (stored: Cache)
      ensures cache == stored && requests == []
    {
      cache := stored;
      requests := [];
    }

    /** The request for `emoteName` and the handling of its answer (lines 70-95). */
    method Complete(emoteName: string, api: Api) returns (r: Option<EmoteRef>)
      modifies this
      ensures r == FetchEmote(api, emoteName)
      ensures cache == Store(old(cache), emoteName, api)
      ensures requests == old(requests) + [emoteName]
    {
      requests := requests + [emoteName];
      var result := api(emoteName);
      if result.None? || |result.value| == 0 {
        return None;
      }
      var emote := result.value[0];
      if |emote.host.files| == 0 {
        return None;
      }
      var found := FindFile(emote.host.files, PreferredFile);
      var filename := if found.Some? then found.value.name else emote.host.files[0].name;
      var emoteData := EmoteRef(emote.name, emote.host.url + "/" + filename);
      cache := cache[Lower(emoteName) := emoteData];
      r := Some(emoteData);
    }

    /** `searchEmote(emoteName)` run to completion. */
    method SearchEmote(emoteName: string, api: Api) returns (r: Option<EmoteRef>)
      modifies this
      ensures r == Lookup(old(cache), emoteName, api)
      ensures !Misses(old(cache), emoteName) ==> cache == old(cache) && requests == old(requests)
      ensures Misses(old(cache), emoteName) ==> cache == Store(old(cache), emoteName, api) && requests == old(requests) + [emoteName]
      ensures Extends(old(cache), cache)
    {
      var key := Lower(emoteName);
      if key in cache {
        return Some(cache[key]);
      }
      r := Complete(emoteName, api);
    }

    /** `getEmoteFromContent(text)` run to completion: a token that is not a shortcode consults nothing. */
    method GetEmoteFromContent(text: string, api: Api) returns (r: Option<EmoteRef>)
      modifies this
      ensures r == ContentLookup(old(cache), text, api)
      ensures EmoteName(text).None? ==> cache == old(cache) && requests == old(requests)
      ensures EmoteName(text).Some? && !Misses(old(cache), EmoteName(text).value) ==>
        cache == old(cache) && requests == old(requests)
      ensures EmoteName(text).Some? && Misses(old(cache), EmoteName(text).value) ==>
        requests == old(requests) + [EmoteName(text).value] && cache == Store(old(cache), EmoteName(text).value, api)
      ensures Extends(old(cache), cache)
    {
      var name := EmoteName(text);
      if name.None? {
        return None;
      }
      r := SearchEmote(name.value, api);
    }

    /** Let the answers to `names`, sent while reading the same cache, arrive in order. */
    method CompleteAll(names: seq<string>, api: Api)
      modifies this
      ensures cache == Settle(old(cache), names, api)
      ensures requests == old(requests) + names
    {
      var i := 0;
      while i < |names|
        invariant 0 <= i <= |names|
        invariant cache == Settle(old(cache), names[..i], api)
        invariant requests == old(requests) + names[..i]
      {
        var _ := Complete(names[i], api);
        assert names[..i + 1][..i] == names[..i];
        i := i + 1;
      }
      assert names[..i] == names;
    }
  }
}
