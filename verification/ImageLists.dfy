/** The image list (manifest/image/list.go). */
module ImageLists {
  import opened Images
  import opened Wrappers
  import opened Seqs
  import opened Sorting
  import opened Paths
  import opened ImageListSpec
  import AliasCache

  class ImageList {
    var items: seq<Image>
    const dir: string
    var deduped: bool
    var relationEntries: map<string, string>

    constructor (dir: string)
      ensures items == [] && this.dir == dir && !deduped && relationEntries == map[]
    {
      this.items := [];
      this.dir := dir;
      this.deduped := false;
      this.relationEntries := map[];
    }

    method Append(images: seq<Image>)
      modifies this`items
      ensures items == old(items) + images
    {
      if |images| == 0 {
        return;
      }
      items := items + images;
    }

    /** Remembers which image the new one belongs to; a second entry for a reference is refused. */
    method AppendWithRelationTo(target: Image, image: Image) returns (r: Result<()>)
      modifies this`items, this`relationEntries
      ensures r.Err? <==> image.Ref(true) in old(relationEntries)
      ensures r.Err? ==> items == old(items) && relationEntries == old(relationEntries)
      ensures r.Ok? ==> items == old(items) + [image]
      ensures r.Ok? ==> relationEntries == old(relationEntries)[image.Ref(true) := target.Ref(true)]
      ensures old(Linked(items, relationEntries)) ==> Linked(items, relationEntries)
    {
      var k, t := image.Ref(true), target.Ref(true);
      if k in relationEntries {
        return Err("unexpected duplicate relation entry for " + k);
      }
      LinkedGrows(items, relationEntries, image, t);
      relationEntries := relationEntries[k := t];
      Append([image]);
      return Ok(());
    }

    method RelatedTo(ref: string) returns (results: seq<string>)
      ensures NoDuplicates(results)
      ensures forall k :: k in results <==> k in relationEntries && relationEntries[k] == ref
    {
      results := [];
      var keys := InAnyOrder(relationEntries.Keys);
      for i := 0 to |keys|
        invariant NoDuplicates(results)
        invariant forall k :: k in results <==> k in keys[..i] && relationEntries[k] == ref
      {
        assert keys[i] !in keys[..i];
        assert keys[..i + 1] == keys[..i] + [keys[i]];
        if relationEntries[keys[i]] == ref {
          results := results + [keys[i]];
        }
      }
      assert keys[..|keys|] == keys;
    }

    method GetItemByRef(ref: string) returns (item: Option<Image>)
      ensures item == FirstByRef(items, ref)
      ensures item.None? <==> forall i :: 0 <= i < |items| ==> items[i].Ref(true) != ref
      ensures item.Some? ==> exists i :: 0 <= i < |items| && items[i] == item.value && items[i].Ref(true) == ref
                                         && forall j :: 0 <= j < i ==> items[j].Ref(true) != ref
    {
      FirstByRefMeaning(items, ref);
      for i := 0 to |items|
        invariant FirstByRef(items, ref) == FirstByRef(items[i..], ref)
      {
        assert items[i..][1..] == items[i + 1..];
        if items[i].Ref(true) == ref {
          return Some(items[i]);
        }
      }
      return None;
    }

    /** Collects the images related to a reference, in no particular order. */
    method CollectRelatedToRef(ref: string) returns (result: ImageList, ghost order: seq<string>)
      ensures fresh(result) && result.dir == dir && result.relationEntries == map[] && !result.deduped
      ensures NoDuplicates(order) && forall k :: k in order <==> k in relationEntries && relationEntries[k] == ref
      ensures result.items == FoundByRef(items, order)
      ensures Linked(items, relationEntries) ==> IsRelatedTo(items, relationEntries, ref, result.items)
      ensures Linked(items, relationEntries) ==> forall x ::
        multiset(result.items)[x] ==
        if x.Ref(true) in relationEntries && relationEntries[x.Ref(true)] == ref then multiset(items)[x] else 0
    {
      var refs := RelatedTo(ref);
      order := refs;
      result := CollectRefs(refs);
      if Linked(items, relationEntries) {
        FoundAreRelated(items, relationEntries, ref, refs);
        forall x { RelatedMeaning(items, relationEntries, ref, x); }
      }
    }

    method CollectRefs(refs: seq<string>) returns (result: ImageList)
      ensures fresh(result) && result.dir == dir && result.relationEntries == map[] && !result.deduped
      ensures result.items == FoundByRef(items, refs)
    {
      result := new ImageList(dir);
      for i := 0 to |refs|
        invariant result.items == FoundByRef(items, refs[..i])
        invariant result.relationEntries == map[] && !result.deduped
      {
        var related := GetItemByRef(refs[i]);
        FoundOneMore(items, refs[..i], refs[i]);
        assert refs[..i + 1] == refs[..i] + [refs[i]];
        if related.Some? {
          result.Append([related.value]);
        }
      }
      assert refs[..|refs|] == refs;
    }

    method MakeAliases()
      modifies this`items
      ensures items == WithAliases(old(items))
    {
      var cache := AliasCache.NewFromImages(items);
      var aliases, _ := AliasCache.MakeAliasesForNames(cache);
      ghost var before := items;
      for i := 0 to |aliases|
        invariant |items| == |before|
        invariant forall j :: 0 <= j < |before| ==> items[j] == if j < i then WithAliases(before)[j] else before[j]
      {
        items := items[i := items[i].(alias := Some(aliases[i]))];
      }
    }

    /** What the list does once: it merges the items key by key, and lists the merges in any order. */
    method MergeItems() returns (ghost ks: seq<Key>)
      requires forall x :: x in items ==> x.sources != []
      modifies this`items
      ensures Merged(old(items), items, ks)
      ensures MergesReferences(old(items), items) && forall x :: x in items ==> InSourceOrder(x.sources)
    {
      var unique := MergeByKey(items);
      var images;
      images, ks := ListMerges(unique);
      ListedIsMerged(items, unique, images, ks);
      MergedMeaning(items, images, ks);
      MergedInOrder(items, images, ks);
      items := images;
    }

    static method MergeByKey(items: seq<Image>) returns (unique: map<Key, Image>)
      requires forall x :: x in items ==> x.sources != []
      ensures MergesOf(items, unique)
    {
      unique := map[];
      ghost var done: seq<Image> := [];
      for i := 0 to |items|
        invariant done == items[..i]
        invariant MergesOf(done, unique)
      {
        PrefixGrows(items, i);
        unique := MergeOne(done, unique, items[i]);
        done := done + [items[i]];
      }
      WholePrefix(items);
    }

    static method MergeOne(ghost done: seq<Image>, unique: map<Key, Image>, image: Image)
      returns (unique': map<Key, Image>)
      requires image.sources != [] && MergesOf(done, unique)
      ensures MergesOf(done + [image], unique')
    {
      var sources := image.sources;
      var k := (image.OriginalRef(), image.digest);
      if k in unique {
        sources := sources + unique[k].sources;
      }
      var merged := Image(sources, image.originalName, image.originalTag, image.digest,
                          image.newName, image.newTag, None);
      OneMoreMerge(done, unique, image, merged);
      unique' := unique[k := merged];
    }

    /** Ranges over the merges in any order and sorts the sources of each. */
    static method ListMerges(unique: map<Key, Image>) returns (images: seq<Image>, ghost ks: seq<Key>)
      ensures Listed(unique, images, ks)
    {
      var keys := InAnyOrder(unique.Keys);
      images := [];
      for i := 0 to |keys|
        invariant |images| == i && forall j :: 0 <= j < i ==> SortedCopy(unique[keys[j]], images[j])
      {
        var v := SortSources(unique[keys[i]]);
        images := images + [v];
      }
      ks := keys;
    }

    static method SortSources(image: Image) returns (sorted: Image)
      ensures SortedCopy(image, sorted)
    {
      sorted := image;
      if |image.sources| > 1 {
        SourcesArePreordered(image.sources);
        var sources := SortFunc(image.sources, CompareSources);
        sorted := image.(sources := sources);
      }
    }

    /** Merges items with the same original reference and digest, once per list, and then names them. */
    method Dedup() returns (r: Result<()>, ghost ks: seq<Key>)
      requires (forall x :: x in items ==> x.digest != "") && !deduped ==> forall x :: x in items ==> x.sources != []
      modifies this`items, this`deduped
      ensures r.Err? <==> exists x :: x in old(items) && x.digest == ""
      ensures r.Err? ==> items == old(items) && deduped == old(deduped)
      ensures r.Ok? ==> deduped
      ensures r.Ok? && !old(deduped) ==> Deduped(old(items), items, ks)
      ensures r.Ok? && !old(deduped) ==> MergesReferences(old(items), items)
      ensures r.Ok? && !old(deduped) ==> forall x :: x in items ==> InSourceOrder(x.sources)
      ensures r.Ok? && old(deduped) ==> items == WithAliases(old(items))
    {
      ks := [];
      for i := 0 to |items|
        invariant forall j :: 0 <= j < i ==> items[j].digest != ""
      {
        if items[i].digest == "" {
          return Err("image " + items[i].Ref(true) + " has no digest"), [];
        }
      }
      ghost var before, first := items, !deduped;
      if !deduped {
        deduped := true;
        ks := MergeItems();
        MergedThenAliased(before, items, ks);
      }
      MakeAliases();
      if first {
        MergedMeaning(before, items, ks);
        MergedInOrder(before, items, ks);
      }
      return Ok(()), ks;
    }
  
    static ghost predicate Distinct(groups: map<string, ImageList>) {
      forall p, q :: p in groups && q in groups && p != q ==> groups[p] != groups[q]
    }

    static ghost function View(groups: map<string, ImageList>): map<string, seq<Image>>
      reads set p | p in groups :: groups[p]
    {
      map p | p in groups :: groups[p].items
    }

    method AddItem(groups: map<string, ImageList>, manifest: string, item: Image)
      returns (groups': map<string, ImageList>)
      requires Distinct(groups)
      modifies set p | p in groups :: groups[p]
      ensures Distinct(groups') && (Owned(groups) ==> Owned(groups'))
      ensures View(groups') == WithMember(old(View(groups)), FilepathJoin(dir, manifest), item)
      ensures Extended(groups, groups')
    {
      var p := FilepathJoin(dir, manifest);
      groups' := groups;
      if p !in groups' {
        var group := new ImageList(dir);
        groups' := groups'[p := group];
      }
      groups'[p].Append([item]);
    }

    /** Groups that a call may have added to, and added new ones to, but not taken away. */
    twostate predicate Extended(groups: map<string, ImageList>, new groups': map<string, ImageList>)
    {
      forall p :: p in groups' ==> (p in groups && groups'[p] == groups[p]) || fresh(groups'[p])
    }

    ghost predicate Owned(groups: map<string, ImageList>) {
      Distinct(groups) && forall p :: p in groups ==> groups[p].dir == dir
    }

    method AddSource(groups: map<string, ImageList>, ghost done: seq<Image>, item: Image,
                     ghost s: seq<Source>, source: Source)
      returns (groups': map<string, ImageList>)
      requires Owned(groups) && IsGrouping(dir, View(groups), done, item, s)
      modifies set p | p in groups :: groups[p]
      ensures Owned(groups') && IsGrouping(dir, View(groups'), done, item, s + [source])
      ensures Extended(groups, groups')
    {
      GroupingStep(dir, View(groups), done, item, s, source);
      groups' := AddItem(groups, source.manifest, Single(item, source));
    }

    /** Adds the sources of one item, one by one. */
    method AddSources(groups: map<string, ImageList>, ghost done: seq<Image>, item: Image)
      returns (groups': map<string, ImageList>)
      requires Owned(groups) && IsGrouping(dir, View(groups), done, item, [])
      modifies set p | p in groups :: groups[p]
      ensures Owned(groups') && IsGrouping(dir, View(groups'), done, item, item.sources)
      ensures Extended(groups, groups')
    {
      groups' := groups;
      ghost var seen: seq<Source> := [];
      for j := 0 to |item.sources|
        invariant seen == item.sources[..j]
        invariant Owned(groups') && IsGrouping(dir, View(groups'), done, item, seen)
        invariant Extended(groups, groups')
      {
        PrefixGrows(item.sources, j);
        groups' := AddSource(groups', done, item, seen, item.sources[j]);
        seen := seen + [item.sources[j]];
      }
      WholePrefix(item.sources);
    }

    /** Adds the items one after the other. */
    method AddItems(ghost none: Image) returns (groups: map<string, ImageList>)
      ensures Owned(groups) && IsGrouping(dir, View(groups), items, none, [])
      ensures forall p :: p in groups ==> fresh(groups[p])
    {
      groups := map[];
      ghost var done: seq<Image> := [];
      for i := 0 to |items|
        invariant done == items[..i]
        invariant Owned(groups) && IsGrouping(dir, View(groups), done, none, [])
        invariant forall p :: p in groups ==> fresh(groups[p])
      {
        var item := items[i];
        PrefixGrows(items, i);
        GroupingStart(dir, View(groups), done, none, item);
        groups := AddSources(groups, done, item);
        GroupingItem(dir, View(groups), done, item, none);
        done := done + [item];
      }
      WholePrefix(items);
    }

    /** Splits the list into one list for each manifest, one single-source image for each source. */
    method GroupByManifest() returns (groups: map<string, ImageList>)
      ensures forall p :: p in groups <==> GroupOf(dir, p, items) != []
      ensures forall p :: p in groups ==> fresh(groups[p]) && groups[p].dir == dir
      ensures forall p :: p in groups ==> groups[p].items == GroupOf(dir, p, items)
      ensures forall p :: p in groups <==> exists q :: IsPlace(dir, p, items, q)
      ensures forall p :: p in groups ==> HoldsPlaces(dir, p, items, groups[p].items)
      ensures Distinct(groups)
    {
      ghost var none := Image([], "", "", "", "", "", None);
      groups := AddItems(none);
      GroupingDone(dir, View(groups), items, none);
      forall p { GroupHoldsPlaces(dir, p, items); }
    }
  }
}
