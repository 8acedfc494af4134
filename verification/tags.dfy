/** `tags2dict`: the provider's list of tag records turned into a dictionary. */
module TagDicts {
  import opened Instances
  import opened LastWinsDicts

  /** The `(Key, Value)` pairs of a tag list, in order. */
  function TagPairs(tags: seq<Tag>): (ps: seq<(string, string)>)
    ensures |ps| == |tags|
    ensures forall i :: 0 <= i < |tags| ==> ps[i] == (tags[i].key, tags[i].value)
  {
    seq(|tags|, i requires 0 <= i < |tags| => (tags[i].key, tags[i].value))
  }

  /** The dictionary `tags2dict` returns for a tag list. */
  function TagMap(tags: seq<Tag>): map<string, string>
  {
    LastWins(TagPairs(tags))
  }

  /** No later tag record has the same key as record `i`. */
  predicate LastTag(tags: seq<Tag>, i: int)
    requires 0 <= i < |tags|
  {
    forall j :: i < j < |tags| ==> tags[j].key != tags[i].key
  }

  /**
   * The keys of the dictionary are exactly the keys of the tag records, and
   * each key maps to the value of its last record.
   */
  lemma TagMapLastWins(tags: seq<Tag>)
    ensures TagMap(tags).Keys == set i | 0 <= i < |tags| :: tags[i].key
    ensures forall i :: 0 <= i < |tags| && LastTag(tags, i) ==>
      TagMap(tags)[tags[i].key] == tags[i].value
  {
  }

  /** One more tag record: the dictionary after the next iteration of `tags2dict`. */
  lemma TagMapSnoc(tags: seq<Tag>, i: int)
    requires 0 <= i < |tags|
    ensures TagMap(tags[..i + 1]) == TagMap(tags[..i])[tags[i].key := tags[i].value]
  {
    assert TagPairs(tags[..i + 1]) == TagPairs(tags[..i]) + [(tags[i].key, tags[i].value)];
    LastWinsSnoc(TagPairs(tags[..i]), tags[i].key, tags[i].value);
  }

  /** `tags2dict`: assigns `ret[t['Key']] = t['Value']` for each record in turn. */
  method Tags2Dict(tags: seq<Tag>) returns (ret: map<string, string>)
    ensures ret == TagMap(tags)
  {
    ret := map[];
    for i := 0 to |tags|
      invariant ret == TagMap(tags[..i])
    {
      TagMapSnoc(tags, i);
      ret := ret[tags[i].key := tags[i].value];
    }
    assert tags[..|tags|] == tags;
  }
}
