/** Building a function or method documentation entry from its tags. */
module FunctionEntry {
  import opened Wrappers
  import opened Spans
  import opened Tags
  import opened DocEntries
  import opened TagFold

  /** Functions are called with a dot (`Static`), methods with a colon (`Method`). */
  datatype FunctionType = Method | Static {
    /** The name the entry is serialized with (camel case). */
    function SerializedName(): (s: string)
      ensures s in {"method", "static"}
      ensures s == "method" <==> Method?
    {
      if Method? then "method" else "static"
    }
  }

  datatype FunctionDocEntry = FunctionDocEntry(
    name: string,
    desc: string,
    within: string,
    params: seq<ParamTag>,
    returnTags: seq<ReturnTag>,
    markers: seq<MarkerTag>,
    functionType: FunctionType,
    since: Option<string>,
    deprecated: Option<DeprecatedTag>,
    source: DocComment)
  {
    /** The keys a serialized entry has: `since` and `deprecated` are left out
        when absent, `source` is never written. */
    function SerializedKeys(): (keys: set<string>)
      ensures "since" in keys <==> since.Some?
      ensures "deprecated" in keys <==> deprecated.Some?
      ensures "source" !in keys
    {
      {"name", "desc", "within", "params", "returns", "markers", "function_type"}
      + (if since.Some? then {"since"} else {})
      + (if deprecated.Some? then {"deprecated"} else {})
    }
  }

  const UnusedMessage := "This tag is unused by function doc entries."

  function AsParam(t: Tag): Option<ParamTag> {
    if t.Param? then Some(t.param) else None
  }

  function AsReturn(t: Tag): Option<ReturnTag> {
    if t.Return? then Some(t.returnTag) else None
  }

  function AsMarker(t: Tag): Option<MarkerTag> {
    if t.Marker? then Some(t.marker) else None
  }

  function AsDeprecated(t: Tag): Option<DeprecatedTag> {
    if t.Deprecated? then Some(t.deprecated) else None
  }

  function AsSinceVersion(t: Tag): Option<string> {
    if t.Since? then Some(t.since.version.text) else None
  }

  /** The tag kinds a function entry accepts. */
  predicate Applies(t: Tag) {
    t.Param? || t.Return? || t.Marker? || t.Deprecated? || t.Since?
  }

  function Unused(t: Tag): Option<Tag> {
    if Applies(t) then None else Some(t)
  }

  /** The result of building a function entry: every tag applies and the
      entry is returned, or one diagnostic per inapplicable tag is. */
  function Build(args: DocEntryParseArguments, functionType: FunctionType): (r: Result<FunctionDocEntry, seq<Diagnostic>>)
    requires args.within.Some?
    ensures r.Err? ==> r.error != [] && forall k :: 0 <= k < |r.error| ==> r.error[k].message == UnusedMessage
    ensures r.Ok? ==> && r.value.name == args.name && r.value.desc == args.desc
                      && r.value.within == args.within.value && r.value.source == args.source
                      && r.value.functionType == functionType
  {
    var unused := Collect(args.tags, Unused);
    if unused != [] then
      Err(Diagnose(unused, UnusedMessage))
    else
      Ok(FunctionDocEntry(
           args.name,
           args.desc,
           args.within.value,
           Collect(args.tags, AsParam),
           Collect(args.tags, AsReturn),
           Collect(args.tags, AsMarker),
           functionType,
           LastPicked(args.tags, AsSinceVersion),
           LastPicked(args.tags, AsDeprecated),
           args.source))
  }

  /** The builder: one pass over the tags pushing params, returns, markers
      and unused tags and overwriting deprecated and since, then one pass
      turning the unused tags into diagnostics. */
  method Parse(args: DocEntryParseArguments, functionType: FunctionType)
    returns (r: Result<FunctionDocEntry, seq<Diagnostic>>)
    requires args.within.Some?
    ensures r == Build(args, functionType)
  {
    var within := args.within.value;
    var tags := args.tags;
    var params: seq<ParamTag> := [];
    var returnTags: seq<ReturnTag> := [];
    var markers: seq<MarkerTag> := [];
    var unusedTags: seq<Tag> := [];
    var deprecated: Option<DeprecatedTag> := None;
    var since: Option<string> := None;

    for i := 0 to |tags|
      invariant params == Collect(tags[..i], AsParam)
      invariant returnTags == Collect(tags[..i], AsReturn)
      invariant markers == Collect(tags[..i], AsMarker)
      invariant deprecated == LastPicked(tags[..i], AsDeprecated)
      invariant since == LastPicked(tags[..i], AsSinceVersion)
      invariant unusedTags == Collect(tags[..i], Unused)
    {
      var tag := tags[i];
      assert tags[..i + 1][..i] == tags[..i];
      match tag
      case Param(param) => params := params + [param];
      case Return(returnTag) => returnTags := returnTags + [returnTag];
      case Marker(marker) => markers := markers + [marker];
      case Deprecated(deprecatedTag) => deprecated := Some(deprecatedTag);
      case Since(sinceTag) => since := Some(sinceTag.version.text);
      case _ => unusedTags := unusedTags + [tag];
    }
    assert tags[..|tags|] == tags;

    if unusedTags != [] {
      var diagnostics: seq<Diagnostic> := [];
      for j := 0 to |unusedTags|
        invariant diagnostics == Diagnose(unusedTags[..j], UnusedMessage)
      {
        assert unusedTags[..j + 1][..j] == unusedTags[..j];
        diagnostics := diagnostics + [unusedTags[j].ToDiagnostic(UnusedMessage)];
      }
      assert unusedTags[..|unusedTags|] == unusedTags;
      return Err(diagnostics);
    }

    return Ok(FunctionDocEntry(args.name, args.desc, within, params, returnTags, markers,
                               functionType, since, deprecated, args.source));
  }

  /** The build succeeds exactly when every tag is one a function entry accepts. */
  lemma BuildOkIff(args: DocEntryParseArguments, functionType: FunctionType)
    requires args.within.Some?
    ensures Build(args, functionType).Ok? <==> forall i :: 0 <= i < |args.tags| ==> Applies(args.tags[i])
  {
    CollectEmpty(args.tags, Unused);
  }

  /** On failure there is exactly one diagnostic per inapplicable tag, in tag
      order, anchored at that tag and carrying the function-entry message. */
  lemma BuildErr(args: DocEntryParseArguments, functionType: FunctionType)
    requires args.within.Some?
    ensures var r := Build(args, functionType);
            var rejected := Kept(args.tags, Unused);
            r.Err? ==> && r.error != []
                       && |r.error| == |rejected|
                       && (forall k :: 0 <= k < |rejected| ==>
                             !Applies(rejected[k])
                             && r.error[k] == Diagnostic(rejected[k].Source(), UnusedMessage))
                       && (forall t :: t in args.tags && !Applies(t) ==> t in rejected)
  {
    CollectSelf(args.tags, Unused);
    KeptMembers(args.tags, Unused);
    CollectIsKept(args.tags, Unused);
  }

  /** On success the arguments pass through, params, returns and markers are
      exactly the tags of their kind in tag order, duplicates kept, and
      deprecated and since come from the last tag of their kind. */
  lemma BuildOk(args: DocEntryParseArguments, functionType: FunctionType)
    requires args.within.Some?
    ensures var r := Build(args, functionType);
            var tags := args.tags;
            r.Ok? ==>
              && r.value.name == args.name && r.value.desc == args.desc
              && r.value.within == args.within.value && r.value.source == args.source
              && r.value.functionType == functionType
              && |r.value.params| == |Kept(tags, AsParam)|
              && (forall k :: 0 <= k < |r.value.params| ==> Kept(tags, AsParam)[k] == Param(r.value.params[k]))
              && |r.value.returnTags| == |Kept(tags, AsReturn)|
              && (forall k :: 0 <= k < |r.value.returnTags| ==> Kept(tags, AsReturn)[k] == Return(r.value.returnTags[k]))
              && |r.value.markers| == |Kept(tags, AsMarker)|
              && (forall k :: 0 <= k < |r.value.markers| ==> Kept(tags, AsMarker)[k] == Marker(r.value.markers[k]))
              && (r.value.deprecated.None? <==> forall i :: 0 <= i < |tags| ==> !tags[i].Deprecated?)
              && (r.value.deprecated.Some? ==>
                    exists i :: && 0 <= i < |tags| && tags[i] == Deprecated(r.value.deprecated.value)
                                && forall j :: i < j < |tags| ==> !tags[j].Deprecated?)
              && (r.value.since.None? <==> forall i :: 0 <= i < |tags| ==> !tags[i].Since?)
              && (r.value.since.Some? ==>
                    exists i :: && 0 <= i < |tags| && tags[i].Since?
                                && tags[i].since.version.text == r.value.since.value
                                && forall j :: i < j < |tags| ==> !tags[j].Since?)
  {
    var tags := args.tags;
    CollectIsKept(tags, AsParam);
    CollectIsKept(tags, AsReturn);
    CollectIsKept(tags, AsMarker);
    LastPickedIsLast(tags, AsDeprecated);
    LastPickedIsLast(tags, AsSinceVersion);
  }

  /** Last wins: appending a `@deprecated` tag replaces the stored one and
      changes nothing else. */
  lemma DeprecatedLastWins(args: DocEntryParseArguments, functionType: FunctionType, d: DeprecatedTag)
    requires args.within.Some?
    ensures var before := Build(args, functionType);
            var after := Build(args.(tags := args.tags + [Deprecated(d)]), functionType);
            && after.Ok? == before.Ok?
            && (after.Ok? ==> after.value == before.value.(deprecated := Some(d)))
            && (after.Err? ==> after.error == before.error)
  {
    var t := Deprecated(d);
    CollectSnoc(args.tags, t, Unused);
    CollectSnoc(args.tags, t, AsParam);
    CollectSnoc(args.tags, t, AsReturn);
    CollectSnoc(args.tags, t, AsMarker);
    CollectSnoc(args.tags, t, AsDeprecated);
    CollectSnoc(args.tags, t, AsSinceVersion);
  }

  /** Order is kept: appending a `@param` tag adds it after the params
      already there, duplicates included. */
  lemma ParamAppended(args: DocEntryParseArguments, functionType: FunctionType, p: ParamTag)
    requires args.within.Some?
    ensures var before := Build(args, functionType);
            var after := Build(args.(tags := args.tags + [Param(p)]), functionType);
            && after.Ok? == before.Ok?
            && (after.Ok? ==> after.value == before.value.(params := before.value.params + [p]))
            && (after.Err? ==> after.error == before.error)
  {
    var t := Param(p);
    CollectSnoc(args.tags, t, Unused);
    CollectSnoc(args.tags, t, AsParam);
    CollectSnoc(args.tags, t, AsReturn);
    CollectSnoc(args.tags, t, AsMarker);
    CollectSnoc(args.tags, t, AsDeprecated);
    CollectSnoc(args.tags, t, AsSinceVersion);
  }

  /** An entry built with no `@since` and no `@deprecated` tag serializes
      without those keys; with either tag, the key is written. */
  lemma OptionalKeysOmitted(args: DocEntryParseArguments, functionType: FunctionType)
    requires args.within.Some?
    requires Build(args, functionType).Ok?
    ensures var keys := Build(args, functionType).value.SerializedKeys();
            && ("since" in keys <==> exists i :: 0 <= i < |args.tags| && args.tags[i].Since?)
            && ("deprecated" in keys <==> exists i :: 0 <= i < |args.tags| && args.tags[i].Deprecated?)
  {
    LastPickedIsLast(args.tags, AsDeprecated);
    LastPickedIsLast(args.tags, AsSinceVersion);
  }
}
