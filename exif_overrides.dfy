/** EXIF override rules of process-photos-for-export.py: reading rules from
    their JSON form, deciding whether a rule applies to the tags exported
    from a photo, and appending the `set` directives of every rule that
    applies. A rule's pattern key and value are matched as literal text,
    ignoring ASCII case. */
module ExifOverrides {

  import opened Wrappers
  import opened Text

  /** A parsed JSON value; numbers, booleans and null are `JOther`. */
  datatype Json = JString(s: string) | JArray(items: seq<Json>) | JObject(fields: map<string, Json>) | JOther

  /** Why mapping a JSON value failed: a missing key (`KeyError`), or a value
      of the wrong kind. */
  datatype JsonError = MissingKey(key: string) | NotAnObject | NotAList(key: string) | NotAString(key: string)

  datatype ExifTag = ExifTag(key: string, value: string, valueType: string)

  datatype Rule = Rule(pattern: Option<ExifTag>, tags: seq<ExifTag>)

  const DefaultValueType: string := "Ascii"

  // ---------------------------------------------------------------- JSON mapping

  function StringField(fields: map<string, Json>, key: string): (r: Result<string, JsonError>)
    ensures r.Success? <==> key in fields && fields[key].JString?
    ensures r.Success? ==> fields[key] == JString(r.value)
    ensures key !in fields ==> r == Failure(MissingKey(key))
  {
    if key !in fields then Failure(MissingKey(key))
    else if !fields[key].JString? then Failure(NotAString(key))
    else Success(fields[key].s)
  }

  /** `map_exif_tag_from_json`: `tag` and `value` are required, in that
      order; `value_type` defaults to `Ascii`. */
  function MapExifTag(j: Json): (r: Result<ExifTag, JsonError>)
    ensures r.Success? <==>
      j.JObject? && StringField(j.fields, "tag").Success? && StringField(j.fields, "value").Success? &&
      ("value_type" in j.fields ==> j.fields["value_type"].JString?)
    ensures r.Success? ==>
      j.fields["tag"] == JString(r.value.key) && j.fields["value"] == JString(r.value.value) &&
      r.value.valueType == (if "value_type" in j.fields then j.fields["value_type"].s else DefaultValueType)
  {
    if !j.JObject? then Failure(NotAnObject)
    else
      var key := StringField(j.fields, "tag");
      if key.Failure? then Failure(key.error)
      else
        var value := StringField(j.fields, "value");
        if value.Failure? then Failure(value.error)
        else if "value_type" !in j.fields then Success(ExifTag(key.value, value.value, DefaultValueType))
        else
          var valueType := StringField(j.fields, "value_type");
          if valueType.Failure? then Failure(valueType.error)
          else Success(ExifTag(key.value, value.value, valueType.value))
  }

  /** `[map_exif_tag_from_json(x) for x in items]`: the first failure
      propagates; otherwise the tags come in the order of the items. */
  function MapExifTags(items: seq<Json>): (r: Result<seq<ExifTag>, JsonError>)
    ensures r.Success? <==> forall i :: 0 <= i < |items| ==> MapExifTag(items[i]).Success?
    ensures r.Success? ==> |r.value| == |items| && forall i :: 0 <= i < |items| ==> r.value[i] == MapExifTag(items[i]).value
    decreases |items|
  {
    if items == [] then Success([])
    else
      var head := MapExifTag(items[0]);
      if head.Failure? then Failure(head.error)
      else
        var tail := MapExifTags(items[1..]);
        if tail.Failure? then
          assert forall i :: 1 <= i < |items| ==> items[1..][i - 1] == items[i];
          Failure(tail.error)
        else
          Success([head.value] + tail.value)
  }

  /** The items a Python `for` loop over a JSON value visits, as far as they
      matter here: a list gives its items; an empty object or an empty string
      gives none. Iterating a non-empty object (its keys) or a non-empty
      string (its characters) gives strings, which are not objects, and any
      other value cannot be iterated at all. */
  function Items(j: Json, key: string): (r: Result<seq<Json>, JsonError>)
    ensures r.Success? <==> j.JArray? || j == JObject(map[]) || j == JString("")
    ensures j.JArray? ==> r == Success(j.items)
    ensures r.Success? && !j.JArray? ==> r.value == []
    ensures (j.JObject? || j.JString?) && r.Failure? ==> r.error == NotAnObject
    ensures !(j.JArray? || j.JObject? || j.JString?) ==> r == Failure(NotAList(key))
  {
    match j
    case JArray(items) => Success(items)
    case JObject(fields) => if fields == map[] then Success([]) else Failure(NotAnObject)
    case JString(s) => if s == "" then Success([]) else Failure(NotAnObject)
    case JOther => Failure(NotAList(key))
  }

  /** `map_exif_override_rule_from_json`: the pattern is mapped first when
      the key is present and is `None` otherwise; `tags` is required. */
  function MapRule(j: Json): (r: Result<Rule, JsonError>)
    ensures r.Success? ==> j.JObject? && (r.value.pattern.None? <==> "pattern" !in j.fields)
    ensures r.Success? && r.value.pattern.Some? ==> MapExifTag(j.fields["pattern"]) == Success(r.value.pattern.value)
    ensures r.Success? ==>
      "tags" in j.fields && Items(j.fields["tags"], "tags").Success? &&
      MapExifTags(Items(j.fields["tags"], "tags").value) == Success(r.value.tags)
    ensures j.JObject? && "tags" in j.fields && (j.fields["tags"] == JObject(map[]) || j.fields["tags"] == JString("")) &&
            ("pattern" in j.fields ==> MapExifTag(j.fields["pattern"]).Success?) ==>
      r.Success? && r.value.tags == []
  {
    if !j.JObject? then Failure(NotAnObject)
    else
      var pattern :=
        if "pattern" in j.fields then
          var p := MapExifTag(j.fields["pattern"]);
          if p.Failure? then Failure(p.error) else Success(Some(p.value))
        else Success(None);
      if pattern.Failure? then Failure(pattern.error)
      else if "tags" !in j.fields then Failure(MissingKey("tags"))
      else
        var items := Items(j.fields["tags"], "tags");
        if items.Failure? then Failure(items.error)
        else
          var tags := MapExifTags(items.value);
          if tags.Failure? then Failure(tags.error)
          else Success(Rule(pattern.value, tags.value))
  }

  /** `[map_exif_override_rule_from_json(x) for x in rules]`. */
  function MapRules(items: seq<Json>): (r: Result<seq<Rule>, JsonError>)
    ensures r.Success? <==> forall i :: 0 <= i < |items| ==> MapRule(items[i]).Success?
    ensures r.Success? ==> |r.value| == |items| && forall i :: 0 <= i < |items| ==> r.value[i] == MapRule(items[i]).value
    decreases |items|
  {
    if items == [] then Success([])
    else
      var head := MapRule(items[0]);
      if head.Failure? then Failure(head.error)
      else
        var tail := MapRules(items[1..]);
        if tail.Failure? then
          assert forall i :: 1 <= i < |items| ==> items[1..][i - 1] == items[i];
          Failure(tail.error)
        else
          Success([head.value] + tail.value)
  }

  /** The rules of a parsed rules file: its `rules` list, mapped. */
  function RulesOfDocument(doc: Json): (r: Result<seq<Rule>, JsonError>)
    ensures r.Success? ==>
      doc.JObject? && "rules" in doc.fields && Items(doc.fields["rules"], "rules").Success? &&
      MapRules(Items(doc.fields["rules"], "rules").value) == r
    ensures doc.JObject? && "rules" in doc.fields && doc.fields["rules"].JArray? ==> r == MapRules(doc.fields["rules"].items)
    ensures doc.JObject? && "rules" in doc.fields && (doc.fields["rules"] == JObject(map[]) || doc.fields["rules"] == JString("")) ==>
      r == Success([])
    ensures !doc.JObject? ==> r == Failure(NotAnObject)
    ensures doc.JObject? && "rules" !in doc.fields ==> r == Failure(MissingKey("rules"))
  {
    if !doc.JObject? then Failure(NotAnObject)
    else if "rules" !in doc.fields then Failure(MissingKey("rules"))
    else
      var items := Items(doc.fields["rules"], "rules");
      if items.Failure? then Failure(items.error)
      else MapRules(items.value)
  }

  /** `get_metadata_override_rules`: no rules file gives no rules; a parsed
      rules file gives its rules, or the error mapping it raises. */
  function OverrideRules(overrides: Option<Json>): (r: Result<seq<Rule>, JsonError>)
    ensures overrides.None? ==> r == Success([])
    ensures overrides.Some? ==> r == RulesOfDocument(overrides.value)
  {
    if overrides.None? then Success([]) else RulesOfDocument(overrides.value)
  }

  // The JSON a rules file holds for a tag and a rule: the inverse of the mapping.

  function TagToJson(t: ExifTag): Json
  {
    JObject(map["tag" := JString(t.key), "value" := JString(t.value), "value_type" := JString(t.valueType)])
  }

  function TagsToJson(ts: seq<ExifTag>): (r: seq<Json>)
    ensures |r| == |ts| && forall i :: 0 <= i < |ts| ==> r[i] == TagToJson(ts[i])
  {
    if ts == [] then [] else [TagToJson(ts[0])] + TagsToJson(ts[1..])
  }

  function RuleToJson(rule: Rule): Json
  {
    var tags := map["tags" := JArray(TagsToJson(rule.tags))];
    JObject(if rule.pattern.Some? then tags["pattern" := TagToJson(rule.pattern.value)] else tags)
  }

  /** Mapping the JSON form of a tag gives the tag back, and a tag whose type
      is omitted is an `Ascii` tag. */
  lemma MapExifTagRoundTrip(t: ExifTag)
    ensures MapExifTag(TagToJson(t)) == Success(t)
    ensures MapExifTag(JObject(map["tag" := JString(t.key), "value" := JString(t.value)])) ==
      Success(ExifTag(t.key, t.value, DefaultValueType))
  {
  }

  lemma MapExifTagsRoundTrip(ts: seq<ExifTag>)
    ensures MapExifTags(TagsToJson(ts)) == Success(ts)
  {
    forall i | 0 <= i < |ts| ensures MapExifTag(TagsToJson(ts)[i]) == Success(ts[i]) {
      MapExifTagRoundTrip(ts[i]);
    }
    var r := MapExifTags(TagsToJson(ts));
    assert r.Success?;
    assert r.value == ts;
  }

  /** Mapping the JSON form of a rule gives the rule back: the pattern, and
      the tags in their order. */
  lemma MapRuleRoundTrip(rule: Rule)
    ensures MapRule(RuleToJson(rule)) == Success(rule)
  {
    MapExifTagsRoundTrip(rule.tags);
    if rule.pattern.Some? { MapExifTagRoundTrip(rule.pattern.value); }
  }

  // ---------------------------------------------------------------- rule matching

  /** `pat` occurs at position `i` of `s`, ignoring ASCII case. */
  predicate OccursAt(s: string, pat: string, i: nat)
  {
    i + |pat| <= |s| && Lower(s[i..i + |pat|]) == Lower(pat)
  }

  predicate NoNewline(s: string)
  {
    forall k :: 0 <= k < |s| ==> s[k] != '\n'
  }

  /** No newline in `s` from position `a` up to (not including) `b`. */
  predicate Clear(s: string, a: nat, b: nat)
  {
    forall k :: a <= k < b && k < |s| ==> s[k] != '\n'
  }

  /** The line matches `.*{key}.*{value}.*` from its start (re.match, with
      `.` stopping at a newline and re.IGNORECASE): the key occurs, and the
      value occurs after it, with no newline before the value's start other
      than inside the key. */
  ghost predicate LineMatches(line: string, key: string, value: string)
  {
    exists i: nat, j: nat ::
      i + |key| <= j <= |line| && OccursAt(line, key, i) && OccursAt(line, value, j) &&
      Clear(line, 0, i) && Clear(line, i + |key|, j)
  }

  /** The first position from `from` at which `pat` occurs, scanning no
      further than the first newline. */
  function Find(s: string, pat: string, from: nat): (r: Option<nat>)
    requires from <= |s|
    ensures r.Some? ==> from <= r.value <= |s| && OccursAt(s, pat, r.value) && Clear(s, from, r.value)
    ensures forall k: nat :: from <= k <= |s| && Clear(s, from, k) && (r.Some? ==> k < r.value) ==> !OccursAt(s, pat, k)
    decreases |s| - from
  {
    if OccursAt(s, pat, from) then Some(from)
    else if from < |s| && s[from] != '\n' then Find(s, pat, from + 1)
    else None
  }

  /** What `p.match(t)` answers: the first occurrence of the key, then the
      value after it. */
  function MatchLine(line: string, key: string, value: string): bool
  {
    var i := Find(line, key, 0);
    i.Some? && i.value + |key| <= |line| && Find(line, value, i.value + |key|).Some?
  }

  /** An occurrence of a newline-free key holds no newline. */
  lemma OccurrenceClear(line: string, key: string, a: nat)
    requires NoNewline(key) && OccursAt(line, key, a)
    ensures Clear(line, a, a + |key|)
  {
    forall k | a <= k < a + |key|
      ensures line[k] != '\n'
    {
      assert Lower(line[a..a + |key|])[k - a] == Lower(key)[k - a];
      assert line[a..a + |key|][k - a] == line[k];
    }
  }

  /** Taking the first occurrence of the key loses no match: `MatchLine` and
      the pattern agree on every line, for keys without a newline (EXIF tag
      names). */
  lemma MatchLineCorrect(line: string, key: string, value: string)
    requires NoNewline(key)
    ensures MatchLine(line, key, value) <==> LineMatches(line, key, value)
  {
    var i := Find(line, key, 0);
    if MatchLine(line, key, value) {
      var j := Find(line, value, i.value + |key|).value;
      assert OccursAt(line, key, i.value) && OccursAt(line, value, j);
    }
    if LineMatches(line, key, value) {
      var a: nat, b: nat :| a + |key| <= b <= |line| && OccursAt(line, key, a) && OccursAt(line, value, b) &&
        Clear(line, 0, a) && Clear(line, a + |key|, b);
      assert i.Some? && i.value <= a;
      OccurrenceClear(line, key, a);
      assert Clear(line, i.value + |key|, b);
    }
  }

  /** `rule_match`: a rule without a pattern applies to any tag list, even an
      empty one; a rule with a pattern applies when some line matches it. */
  function RuleMatch(lines: seq<string>, rule: Rule): (r: bool)
    ensures rule.pattern.None? ==> r
    ensures rule.pattern.Some? ==>
      (r <==> exists k :: 0 <= k < |lines| && MatchLine(lines[k], rule.pattern.value.key, rule.pattern.value.value))
    decreases |lines|
  {
    if rule.pattern.None? then true
    else if lines == [] then false
    else if MatchLine(lines[0], rule.pattern.value.key, rule.pattern.value.value) then true
    else
      assert forall k :: 1 <= k < |lines| ==> lines[1..][k - 1] == lines[k];
      RuleMatch(lines[1..], rule)
  }

  /** With an EXIF key for a pattern, a rule applies exactly when some line
      holds the key and, after it, the value. */
  lemma RuleMatchCorrect(lines: seq<string>, rule: Rule)
    requires rule.pattern.Some? && NoNewline(rule.pattern.value.key)
    ensures RuleMatch(lines, rule) <==>
      exists k :: 0 <= k < |lines| && LineMatches(lines[k], rule.pattern.value.key, rule.pattern.value.value)
  {
    forall k | 0 <= k < |lines| {
      MatchLineCorrect(lines[k], rule.pattern.value.key, rule.pattern.value.value);
    }
  }

  // ---------------------------------------------------------------- appending overrides

  /** `f"set {t.key} {t.value_type} {t.value}"`. */
  function SetLine(t: ExifTag): string
  {
    "set " + t.key + " " + t.valueType + " " + t.value
  }

  function SetLines(ts: seq<ExifTag>): (r: seq<string>)
    ensures |r| == |ts| && forall i :: 0 <= i < |ts| ==> r[i] == SetLine(ts[i])
  {
    if ts == [] then [] else SetLines(ts[..|ts| - 1]) + [SetLine(ts[|ts| - 1])]
  }

  /** The directives the rules add, matched against `lines`: for each rule
      that applies, in order, one line per tag of the rule, in order. */
  function Directives(lines: seq<string>, rules: seq<Rule>): (r: seq<string>)
    ensures rules == [] ==> r == []
    ensures forall d :: d in r ==> StartsWith(d, "set ")
  {
    if rules == [] then []
    else
      var last := rules[|rules| - 1];
      Directives(lines, rules[..|rules| - 1]) + (if RuleMatch(lines, last) then SetLines(last.tags) else [])
  }

  /** The inner loop: one directive per tag, in order. */
  method AppendSetLines(r0: seq<string>, ts: seq<ExifTag>) returns (r: seq<string>)
    ensures r == r0 + SetLines(ts)
  {
    r := r0;
    var j := 0;
    while j < |ts|
      invariant 0 <= j <= |ts|
      invariant r == r0 + SetLines(ts[..j])
    {
      var t := ts[j];
      assert ts[..j + 1][..j] == ts[..j];
      r := r + ["set " + t.key + " " + t.valueType + " " + t.value];
      j := j + 1;
    }
    assert ts[..j] == ts;
  }

  /** The directives of one more rule. */
  lemma DirectivesSnoc(lines: seq<string>, rules: seq<Rule>, i: nat, applies: bool)
    requires i < |rules| && applies == RuleMatch(lines, rules[i])
    ensures Directives(lines, rules[..i + 1]) ==
      Directives(lines, rules[..i]) + (if applies then SetLines(rules[i].tags) else [])
  {
    assert rules[..i + 1][..i] == rules[..i];
  }

  /** `append_metadata_overrides`: a copy of the exported lines followed by
      the directives. Every rule is matched against the lines as exported,
      never against the growing copy. */
  method AppendMetadataOverrides(lines: seq<string>, rules: seq<Rule>) returns (r: seq<string>)
    ensures r == lines + Directives(lines, rules)
  {
    if rules == [] {
      return lines;
    }
    r := lines;
    var i := 0;
    while i < |rules|
      invariant 0 <= i <= |rules|
      invariant r == lines + Directives(lines, rules[..i])
    {
      var rule := rules[i];
      var applies := RuleMatch(lines, rule);
      DirectivesSnoc(lines, rules, i, applies);
      if applies {
        r := AppendSetLines(r, rule.tags);
      }
      i := i + 1;
    }
    assert rules[..i] == rules;
  }

  /** A directive line is added exactly for a tag of a rule that applies. */
  lemma {:induction false} DirectivesExact(lines: seq<string>, rules: seq<Rule>, d: string)
    ensures d in Directives(lines, rules) <==>
      exists i, k :: 0 <= i < |rules| && 0 <= k < |rules[i].tags| && RuleMatch(lines, rules[i]) && d == SetLine(rules[i].tags[k])
    decreases |rules|
  {
    if rules != [] {
      var init := rules[..|rules| - 1];
      DirectivesExact(lines, init, d);
      assert forall i :: 0 <= i < |init| ==> init[i] == rules[i];
    }
  }

  /** With no rules, or none that applies, the exported lines pass unchanged. */
  lemma {:induction false} NoDirectives(lines: seq<string>, rules: seq<Rule>)
    requires forall i :: 0 <= i < |rules| ==> !RuleMatch(lines, rules[i])
    ensures Directives(lines, rules) == []
    decreases |rules|
  {
    if rules != [] {
      var init := rules[..|rules| - 1];
      assert forall i :: 0 <= i < |init| ==> init[i] == rules[i];
      NoDirectives(lines, init);
    }
  }

  /** The position of the first space in `s`. */
  function SpaceAt(s: string): (r: nat)
    ensures r <= |s| && (r < |s| ==> s[r] == ' ') && forall k :: 0 <= k < r ==> s[k] != ' '
  {
    if s == [] || s[0] == ' ' then 0 else 1 + SpaceAt(s[1..])
  }

  /** How exiv2 reads a `set` directive: keyword, key, type, then the rest
      of the line as the value. */
  function ParseSetLine(line: string): (r: Option<ExifTag>)
    ensures r.Some? ==> StartsWith(line, "set ")
  {
    if !StartsWith(line, "set ") then None else ParseSetFields(line[4..])
  }

  /** The fields after the keyword: the key up to the first space, the type
      up to the next, and the rest as the value. */
  function ParseSetFields(rest: string): (r: Option<ExifTag>)
    ensures r.Some? ==> forall k :: 0 <= k < |r.value.key| ==> r.value.key[k] != ' '
    ensures r.Some? ==> forall k :: 0 <= k < |r.value.valueType| ==> r.value.valueType[k] != ' '
  {
    var k := SpaceAt(rest);
    if k == |rest| then None
    else
      var rest2 := rest[k + 1..];
      var v := SpaceAt(rest2);
      if v == |rest2| then None
      else Some(ExifTag(rest[..k], rest2[v + 1..], rest2[..v]))
  }

  /** A space-free word followed by a space and the rest is cut at that
      space. */
  lemma SpaceAfterWord(w: string, rest: string)
    requires forall k :: 0 <= k < |w| ==> w[k] != ' '
    ensures SpaceAt(w + " " + rest) == |w|
    ensures (w + " " + rest)[..|w|] == w && (w + " " + rest)[|w| + 1..] == rest
  {
    var line := w + " " + rest;
    assert forall k :: 0 <= k < |w| ==> line[k] == w[k];
    assert line[|w|] == ' ';
  }

  /** A directive reads back as the tag it was made from, when neither the
      key nor the type holds a space. */
  lemma SetLineRoundTrip(t: ExifTag)
    requires forall k :: 0 <= k < |t.key| ==> t.key[k] != ' '
    requires forall k :: 0 <= k < |t.valueType| ==> t.valueType[k] != ' '
    ensures ParseSetLine(SetLine(t)) == Some(t)
  {
    var tail := t.valueType + " " + t.value;
    var rest := t.key + " " + tail;
    assert SetLine(t) == "set " + rest;
    KeywordThen(rest);
    SpaceAfterWord(t.key, tail);
    SpaceAfterWord(t.valueType, t.value);
  }

  /** A line made of the keyword and a rest starts with the keyword and
      leaves that rest. */
  lemma KeywordThen(rest: string)
    ensures StartsWith("set " + rest, "set ") && ("set " + rest)[4..] == rest
  {
  }
}
