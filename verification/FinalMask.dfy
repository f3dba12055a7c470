/** Merging of finalmask settings (mergeFinalMask in internal/sub/json_service.go): the
    inbound's own masks, a host's and the transport's are put together in turn. */
module FinalMask {
  import opened Text
  import opened Values

  predicate IsMaskList(key: string) {
    key == "tcp" || key == "udp"
  }

  /** A type assertion to []any: anything else counts as no list. */
  function Masks(m: Fields, key: string): seq<Value> {
    if key in m && m[key].Arr? then m[key].elems else []
  }

  /** What the first loop keeps of a base. */
  predicate Kept(base: Fields, key: string) {
    key in base && (IsMaskList(key) ==> base[key].Arr?)
  }

  /** What the second loop takes from the extra settings. */
  predicate Taken(base: Fields, extra: Fields, key: string) {
    key in extra && (IsMaskList(key) ==> Masks(extra, key) != []) && (key == "quicParams" ==> key !in base)
  }

  function MergedAt(base: Fields, extra: Fields, key: string): Value
    requires Kept(base, key) || Taken(base, extra, key)
  {
    if IsMaskList(key) then Arr(Masks(base, key) + Masks(extra, key))
    else if Taken(base, extra, key) then extra[key]
    else base[key]
  }

  function Merged(base: Fields, extra: Fields): Fields {
    map key | key in base.Keys + extra.Keys && (Kept(base, key) || Taken(base, extra, key))
      :: MergedAt(base, extra, key)
  }

  method CopyBase(base: Fields) returns (merged: Fields)
    ensures merged == map key | key in base && Kept(base, key) :: base[key]
  {
    merged := map[];
    var todo := base.Keys;
    while todo != {}
      invariant todo <= base.Keys
      invariant merged == map key | key in base && key !in todo && Kept(base, key) :: base[key]
      decreases |todo|
    {
      var key := Pick(todo);
      if IsMaskList(key) {
        if base[key].Arr? {
          merged := merged[key := base[key]];
        }
      } else {
        merged := merged[key := base[key]];
      }
      todo := todo - {key};
    }
  }

  /** What one turn of the second loop makes of the map. */
  function Entry(merged: Fields, key: string, value: Value): Fields {
    if IsMaskList(key) then
      if value.Arr? && value.elems != [] then merged[key := Arr(Masks(merged, key) + value.elems)] else merged
    else if key == "quicParams" && key in merged then merged
    else merged[key := value]
  }

  /** The map while the keys in todo are still to come. */
  ghost predicate Progress(base: Fields, extra: Fields, todo: set<string>, merged: Fields) {
    forall key :: ProgressAt(base, extra, todo, merged, key)
  }

  ghost predicate ProgressAt(base: Fields, extra: Fields, todo: set<string>, merged: Fields, key: string) {
    var done := key !in todo && Taken(base, extra, key);
    && (key in merged <==> Kept(base, key) || done)
    && (key in merged ==> merged[key] == if done then MergedAt(base, extra, key) else base[key])
  }

  lemma ProgressStep(base: Fields, extra: Fields, todo: set<string>, merged: Fields, key: string)
    requires Progress(base, extra, todo, merged) && key in todo && key in extra
    ensures Progress(base, extra, todo - {key}, Entry(merged, key, extra[key]))
  {
    var next := Entry(merged, key, extra[key]);
    forall k ensures ProgressAt(base, extra, todo - {key}, next, k) {
      assert ProgressAt(base, extra, todo, merged, k);
      if k == key {
        assert IsMaskList(key) ==> Masks(merged, key) == Masks(base, key);
      } else {
        assert k in next <==> k in merged;
        assert k in merged ==> next[k] == merged[k];
      }
    }
  }

  lemma ProgressDone(base: Fields, extra: Fields, merged: Fields)
    requires Progress(base, extra, {}, merged)
    ensures merged == Merged(base, extra)
  {
    var all := Merged(base, extra);
    forall k ensures (k in merged <==> k in all) && (k in merged ==> merged[k] == all[k]) {
      assert ProgressAt(base, extra, {}, merged, k);
      if k in merged && IsMaskList(k) && !Taken(base, extra, k) {
        assert Masks(base, k) + [] == Masks(base, k);
      }
    }
  }

  /** Maps are walked in no particular order, and the order makes no difference. */
  method MergeFinalMask(base: Fields, extra: Fields) returns (merged: Fields)
    ensures merged == Merged(base, extra)
  {
    merged := CopyBase(base);
    var todo := extra.Keys;
    assert Progress(base, extra, todo, merged) by {
      forall k ensures ProgressAt(base, extra, todo, merged, k) { }
    }
    while todo != {}
      invariant todo <= extra.Keys
      invariant Progress(base, extra, todo, merged)
      decreases |todo|
    {
      var key := Pick(todo);
      ProgressStep(base, extra, todo, merged, key);
      merged := MergeEntry(merged, key, extra[key]);
      todo := todo - {key};
    }
    ProgressDone(base, extra, merged);
  }

  /** The body of that loop. */
  method MergeEntry(merged: Fields, key: string, value: Value) returns (next: Fields)
    ensures next == Entry(merged, key, value)
  {
    next := merged;
    if IsMaskList(key) {
      var baseMasks := Masks(merged, key);
      var extraMasks := if value.Arr? then value.elems else [];
      if |extraMasks| > 0 {
        next := merged[key := Arr(baseMasks + extraMasks)];
      }
    } else if key == "quicParams" {
      if key !in merged {
        next := merged[key := value];
      }
    } else {
      next := merged[key := value];
    }
  }

  // ---------------------------------------------------------------------- laws

  lemma MergedMasks(base: Fields, extra: Fields, key: string)
    requires key == "tcp" || key == "udp"
    ensures Masks(Merged(base, extra), key) == Masks(base, key) + Masks(extra, key)
    ensures key in Merged(base, extra) <==> (key in base && base[key].Arr?) || Masks(extra, key) != []
    ensures key in Merged(base, extra) ==> Merged(base, extra)[key].Arr?
  {
  }

  lemma MergedOther(base: Fields, extra: Fields, key: string)
    requires key != "tcp" && key != "udp"
    ensures key in Merged(base, extra) <==> key in base || key in extra
    ensures var fromBase := key in base && (key == "quicParams" || key !in extra);
            key in Merged(base, extra) ==> Merged(base, extra)[key] == if fromBase then base[key] else extra[key]
  {
  }

  /** Masks from three sources may be put together in any grouping. */
  lemma MergeAssociative(a: Fields, b: Fields, c: Fields)
    ensures Merged(Merged(a, b), c) == Merged(a, Merged(b, c))
  {
    var left, right := Merged(Merged(a, b), c), Merged(a, Merged(b, c));
    forall key ensures (key in left <==> key in right) && (key in left ==> left[key] == right[key]) {
      if IsMaskList(key) {
        MergedMasks(a, b, key);
        MergedMasks(b, c, key);
        MergedMasks(Merged(a, b), c, key);
        MergedMasks(a, Merged(b, c), key);
        Reassociate(Masks(a, key), Masks(b, key), Masks(c, key));
        assert key in left ==> left[key] == Arr(Masks(left, key)) && right[key] == Arr(Masks(right, key));
      } else {
        MergedOther(a, b, key);
        MergedOther(b, c, key);
        MergedOther(Merged(a, b), c, key);
        MergedOther(a, Merged(b, c), key);
      }
    }
  }
}
