/** The rewrite's configuration object: the stored schedule table is turned
    into entries for the animations that exist, and the default animation's
    parameter and variant are read through the animation's own types. */
module ConfigTable {
  import opened Wrappers

  /** What the table load needs of an animation controller: whether it has
      a parameter class, and the names of its variant enumeration if it has
      one. */
  datatype ControllerTypes = ControllerTypes(hasParameterClass: bool, variantNames: Option<set<string>>)

  /** A table entry as stored: the animation name, the parameter as JSON
      text and the variant as text, with the rest of the entry kept as is. */
  datatype StoredEntry = StoredEntry(jobId: string, cron: string, animationName: string,
                                     parameter: string, variant: string)

  /** A loaded entry: the parameter decoded by the parameter class (kept as
      its JSON text here) and the variant looked up in the enumeration. */
  datatype Entry = Entry(jobId: string, cron: string, animationName: string,
                         parameter: Option<string>, variant: Option<string>)

  /** `jsons.default_enum_deserializer`: a text naming no member raises. */
  function LookupVariant(text: string, names: set<string>): (r: Result<string>)
    ensures r.Ok? <==> text in names
    ensures r.Ok? ==> r.value == text
  {
    if text in names then Ok(text) else Err(ValueError)
  }

  /** The loop body for an entry whose animation exists. */
  function Loaded(e: StoredEntry, c: ControllerTypes): (r: Result<Entry>)
    ensures r.Ok? ==> r.value.animationName == e.animationName && r.value.jobId == e.jobId
    ensures r.Ok? ==> (r.value.parameter.None? <==> !c.hasParameterClass)
    ensures r.Ok? ==> (r.value.variant.None? <==> c.variantNames.None?)
    ensures r.Err? <==> c.variantNames.Some? && e.variant !in c.variantNames.value
  {
    var parameter := if c.hasParameterClass then Some(e.parameter) else None;
    if c.variantNames.None? then Ok(Entry(e.jobId, e.cron, e.animationName, parameter, None))
    else
      match LookupVariant(e.variant, c.variantNames.value)
      case Err(err) => Err(err)
      case Ok(v) => Ok(Entry(e.jobId, e.cron, e.animationName, parameter, Some(v)))
  }

  /** `get_scheduled_animations_table` as a function of the stored table:
      entries of unknown animations are skipped, the others are loaded in
      order. */
  function LoadTable(controllers: map<string, ControllerTypes>, table: seq<StoredEntry>): (r: Result<seq<Entry>>)
    ensures r.Ok? ==> |r.value| <= |table|
    ensures r.Ok? ==> forall k :: 0 <= k < |r.value| ==> r.value[k].animationName in controllers
  {
    if table == [] then Ok([])
    else
      var e := table[|table| - 1];
      match LoadTable(controllers, table[..|table| - 1])
      case Err(err) => Err(err)
      case Ok(front) =>
        if e.animationName !in controllers then Ok(front)
        else
          match Loaded(e, controllers[e.animationName])
          case Err(err) => Err(err)
          case Ok(entry) => Ok(front + [entry])
  }

  /** The stored entries whose animation exists, in their order. */
  function Known(controllers: map<string, ControllerTypes>, table: seq<StoredEntry>): (r: seq<StoredEntry>)
    ensures |r| <= |table|
  {
    if table == [] then []
    else
      var front := Known(controllers, table[..|table| - 1]);
      if table[|table| - 1].animationName in controllers then front + [table[|table| - 1]] else front
  }

  /** A loaded table holds exactly the entries of existing animations, in
      their stored order, each with its job, cron and name unchanged. */
  lemma {:induction false} LoadKeepsKnownInOrder(controllers: map<string, ControllerTypes>, table: seq<StoredEntry>)
    requires LoadTable(controllers, table).Ok?
    ensures var r := LoadTable(controllers, table).value;
      var known := Known(controllers, table);
      && |r| == |known|
      && forall k :: 0 <= k < |r| ==>
        r[k].jobId == known[k].jobId && r[k].cron == known[k].cron
        && r[k].animationName == known[k].animationName
  {
    if table != [] {
      LoadKeepsKnownInOrder(controllers, table[..|table| - 1]);
    }
  }

  /** The table load with its loop. */
  method GetScheduledAnimationsTable(controllers: map<string, ControllerTypes>, table: seq<StoredEntry>)
    returns (r: Result<seq<Entry>>)
    ensures r == LoadTable(controllers, table)
  {
    var returnTable: seq<Entry> := [];
    var i := 0;
    while i < |table|
      invariant 0 <= i <= |table|
      invariant LoadTable(controllers, table[..i]) == Ok(returnTable)
    {
      var e := table[i];
      assert table[..i + 1][..i] == table[..i];
      if e.animationName in controllers {
        var loaded := Loaded(e, controllers[e.animationName]);
        if loaded.Err? {
          assert LoadTable(controllers, table[..i + 1]) == Err(loaded.error);
          ErrorPersists(controllers, table, i + 1);
          return Err(loaded.error);
        }
        returnTable := returnTable + [loaded.value];
      }
      i := i + 1;
    }
    assert table[..i] == table;
    return Ok(returnTable);
  }

  /** Once an entry fails to load, the whole load fails with its error. */
  lemma {:induction false} ErrorPersists(controllers: map<string, ControllerTypes>, table: seq<StoredEntry>, i: nat)
    requires i <= |table| && LoadTable(controllers, table[..i]).Err?
    ensures LoadTable(controllers, table) == LoadTable(controllers, table[..i])
    decreases |table| - i
  {
    if i < |table| {
      assert table[..i + 1][..i] == table[..i];
      ErrorPersists(controllers, table, i + 1);
    } else {
      assert table[..i] == table;
    }
  }

  /** `get_default_animation_parameter`: `None` without a parameter class,
      otherwise the stored JSON decoded by it. */
  function DefaultAnimationParameter(hasParameterClass: bool, stored: string): (r: Option<string>)
    ensures r.None? <==> !hasParameterClass
    ensures r.Some? ==> r.value == stored
  {
    if hasParameterClass then Some(stored) else None
  }

  /** `get_default_animation_variant`: `None` without a variant enumeration,
      otherwise the stored text looked up in it. */
  function DefaultAnimationVariant(variantNames: Option<set<string>>, stored: string): (r: Result<Option<string>>)
    ensures variantNames.None? ==> r == Ok(None)
    ensures variantNames.Some? ==> (r.Ok? <==> stored in variantNames.value)
    ensures variantNames.Some? && r.Ok? ==> r.value == Some(stored)
  {
    if variantNames.None? then Ok(None)
    else
      match LookupVariant(stored, variantNames.value)
      case Err(e) => Err(e)
      case Ok(v) => Ok(Some(v))
  }
}
