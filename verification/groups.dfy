/**
 * Group naming in list mode: a tag `key = value` puts its host into the group
 * `"tag_" + sanitize(key) + "_" + sanitize(value)`, where sanitising replaces
 * every character of the class `[:_-./ ()]` by an underscore.
 */
module Groups {

  /** The characters of the regular-expression class `[\:\_\-\.\/\ \(\)]`. */
  predicate IsSeparator(c: char)
  {
    c == ':' || c == '_' || c == '-' || c == '.' || c == '/' || c == ' ' || c == '(' || c == ')'
  }

  /** `re.sub(regex, '_', s)`: every separator becomes `_`, every other character stays. */
  function Sanitize(s: string): (r: string)
    ensures |r| == |s|
    ensures forall i :: 0 <= i < |s| ==> r[i] == (if IsSeparator(s[i]) then '_' else s[i])
  {
    if s == [] then []
    else [if IsSeparator(s[0]) then '_' else s[0]] + Sanitize(s[1..])
  }

  /** The only separator a sanitised string can contain is `_`. */
  lemma SanitizeOutput(s: string)
    ensures forall i :: 0 <= i < |s| ==> IsSeparator(Sanitize(s)[i]) ==> Sanitize(s)[i] == '_'
    ensures forall i :: 0 <= i < |s| ==> Sanitize(s)[i] !in {':', '-', '.', '/', ' ', '(', ')'}
  {
  }

  /** Sanitising twice is sanitising once. */
  lemma SanitizeIdempotent(s: string)
    ensures Sanitize(Sanitize(s)) == Sanitize(s)
  {
  }

  /** A string is left unchanged exactly when its only separators are underscores. */
  lemma SanitizeFixpoint(s: string)
    ensures Sanitize(s) == s <==> forall i :: 0 <= i < |s| ==> IsSeparator(s[i]) ==> s[i] == '_'
  {
  }

  /** Sanitising distributes over concatenation. */
  lemma SanitizeConcat(s: string, t: string)
    ensures Sanitize(s + t) == Sanitize(s) + Sanitize(t)
  {
  }

  /** The inventory key of the group a tag puts its host into. */
  function GroupName(key: string, value: string): (name: string)
    ensures |name| == |key| + |value| + 5 && name[..4] == "tag_"
  {
    "tag_" + Sanitize(key) + "_" + Sanitize(value)
  }

  /** A group name splits back into the sanitised key and the sanitised value. */
  lemma GroupNameParts(key: string, value: string)
    ensures GroupName(key, value)[4..4 + |key|] == Sanitize(key)
    ensures GroupName(key, value)[4 + |key|] == '_'
    ensures GroupName(key, value)[5 + |key|..] == Sanitize(value)
  {
    var name := GroupName(key, value);
    assert name == ("tag_" + Sanitize(key)) + ("_" + Sanitize(value));
  }

  /** No group name is the `_meta` key of the inventory. */
  lemma GroupNameNotMeta(key: string, value: string)
    ensures GroupName(key, value) != "_meta"
  {
    assert GroupName(key, value)[0] == 't';
  }

  /** A group name is unchanged by sanitising key and value first. */
  lemma GroupNameOfSanitized(key: string, value: string)
    ensures GroupName(Sanitize(key), Sanitize(value)) == GroupName(key, value)
  {
    SanitizeIdempotent(key);
    SanitizeIdempotent(value);
  }

  /** The group name of the tag `Name = web-1`. */
  lemma GroupNameExample()
    ensures GroupName("Name", "web-1") == "tag_Name_web_1"
  {
  }

  /** Tags whose keys differ only in their separators name the same group. */
  lemma GroupNameSeparatorsCollide()
    ensures GroupName("a-b", "c") == GroupName("a.b", "c") == "tag_a_b_c"
  {
  }

  /** The boundary between key and value is lost: distinct tags can name the same group. */
  lemma GroupNameBoundaryCollides()
    ensures GroupName("a_b", "c") == GroupName("a", "b_c")
  {
  }
}
