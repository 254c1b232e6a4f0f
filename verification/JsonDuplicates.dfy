/** The duplicate-field checker for calibration documents (calibration.cpp): an event-driven automaton
    over path strings, against a definition on the document tree.  The JSON parser is represented by
    the events of a tree. */
module JsonDuplicates {
  import opened Results

  datatype Json =
    | Scalar
    | Array(items: seq<Json>)
    | Object(members: seq<Member>)

  datatype Member = Member(key: string, value: Json)

  datatype Event = Value | StartObject | Key(text: string) | EndObject | StartArray | EndArray

  // ----- the events of a tree ----------------------------------------------------------------------

  function Events(j: Json): seq<Event>
    decreases j, 0
  {
    match j
    case Scalar => [Value]
    case Array(items) => [StartArray] + ItemEvents(items) + [EndArray]
    case Object(members) => [StartObject] + MemberEvents(members) + [EndObject]
  }

  function ItemEvents(items: seq<Json>): seq<Event>
    decreases items, 1
  {
    if items == [] then [] else Events(items[0]) + ItemEvents(items[1..])
  }

  function MemberEvents(members: seq<Member>): seq<Event>
    decreases members, 1
  {
    if members == [] then []
    else [Key(members[0].key)] + Events(members[0].value) + MemberEvents(members[1..])
  }

  // ----- the automaton -------------------------------------------------------------------------------

  const ROOT_FIELDS: set<string> :=
    {"left_uniforms", "right_uniforms", "params", "rig_tilt", "rig_roll", "sync_offset", "field_roi",
     "lens_correction_amount", "blend_width"}
  const CAMERA_FIELDS: set<string> := {"width", "height", "fx", "fy", "cx", "cy", "d"}
  const PARAMS_FIELDS: set<string> := {"cameraAxisOffset", "intersect", "xTy", "xRz", "zRx", "xRx", "zRz"}
  const ROI_FIELDS: set<string> := {"left", "right"}

  /** `known_fields_for_path`. */
  function KnownFields(path: string): set<string> {
    if path == "$" then ROOT_FIELDS
    else if path == "$.left_uniforms" || path == "$.right_uniforms" then CAMERA_FIELDS
    else if path == "$.params" then PARAMS_FIELDS
    else if path == "$.field_roi" then ROI_FIELDS
    else {}
  }

  /** The fields of a document by name: those of the root, of either camera, of the parameters, of the polygons. */
  lemma {:induction false} KnownByName(key: string)
    ensures key in KnownFields("$") <==>
      key in ["left_uniforms", "right_uniforms", "params", "rig_tilt", "rig_roll", "sync_offset", "field_roi",
              "lens_correction_amount", "blend_width"]
    ensures key in KnownFields("$.left_uniforms") <==> key in ["width", "height", "fx", "fy", "cx", "cy", "d"]
    ensures key in KnownFields("$.right_uniforms") <==> key in ["width", "height", "fx", "fy", "cx", "cy", "d"]
    ensures key in KnownFields("$.params") <==>
      key in ["cameraAxisOffset", "intersect", "xTy", "xRz", "zRx", "xRx", "zRz"]
    ensures key in KnownFields("$.field_roi") <==> key in ["left", "right"]
  {
  }

  datatype Context = Context(path: string, seen: set<string>)

  datatype State = State(objects: seq<Context>, pending: Option<string>, duplicate: bool) {
    /** The path an object starting now would get. */
    function ObjectPath(): string {
      if objects == [] then "$"
      else
        var parent := objects[|objects| - 1].path;
        if pending.Some? then parent + "." + pending.value else parent + "[]"
    }
  }

  /** One callback: the next state, and whether parsing goes on. */
  function Step(s: State, e: Event): (State, bool) {
    match e
    case Value => (s.(pending := None), true)
    case StartArray => (s.(pending := None), true)
    case EndArray => (s.(pending := None), true)
    case StartObject => (State(s.objects + [Context(s.ObjectPath(), {})], None, s.duplicate), true)
    case EndObject =>
      if s.objects == [] then (s, false)
      else (State(s.objects[..|s.objects| - 1], None, s.duplicate), true)
    case Key(text) =>
      if s.objects == [] then (s, false)
      else
        var last := |s.objects| - 1;
        var top := s.objects[last];
        if text in KnownFields(top.path) && text in top.seen then (s.(duplicate := true), false)
        else if text in KnownFields(top.path) then
          (s.(objects := s.objects[last := Context(top.path, top.seen + {text})], pending := Some(text)), true)
        else (s.(pending := Some(text)), true)
  }

  /** `has_duplicate_known_fields` on the events: a refused callback makes the parse invalid. */
  predicate Flagged(s: State, events: seq<Event>)
    decreases |events|
  {
    if events == [] then s.duplicate
    else
      var (next, more) := Step(s, events[0]);
      if more then Flagged(next, events[1..]) else true
  }

  const INITIAL := State([], None, false)

  /** The SAX handler itself. */
  class DuplicateKnownFieldSax {
    var objects: seq<Context>
    var pendingKey: Option<string>
    var duplicate: bool

    constructor ()
      ensures Now() == INITIAL
    {
      objects, pendingKey, duplicate := [], None, false;
    }

    function Now(): State
      reads this
    {
      State(objects, pendingKey, duplicate)
    }

    method OnValue() returns (more: bool)
      modifies this
      ensures (Now(), more) == Step(old(Now()), Value)
    {
      pendingKey := None;
      more := true;
    }

    method OnStartObject() returns (more: bool)
      modifies this
      ensures (Now(), more) == Step(old(Now()), StartObject)
    {
      var path := "$";
      if objects != [] {
        path := objects[|objects| - 1].path;
        if pendingKey.Some? {
          path := path + ".";
          path := path + pendingKey.value;
        } else {
          path := path + "[]";
        }
      }
      pendingKey := None;
      objects := objects + [Context(path, {})];
      more := true;
    }

    method OnKey(text: string) returns (more: bool)
      modifies this
      ensures (Now(), more) == Step(old(Now()), Key(text))
    {
      if objects == [] { return false; }
      var last := |objects| - 1;
      var known := KnownFields(objects[last].path);
      if text in known {
        if text in objects[last].seen {
          duplicate := true;
          return false;
        }
        objects := objects[last := Context(objects[last].path, objects[last].seen + {text})];
      }
      pendingKey := Some(text);
      more := true;
    }

    method OnEndObject() returns (more: bool)
      modifies this
      ensures (Now(), more) == Step(old(Now()), EndObject)
    {
      if objects == [] { return false; }
      objects := objects[..|objects| - 1];
      pendingKey := None;
      more := true;
    }

    method Dispatch(e: Event) returns (more: bool)
      modifies this
      ensures (Now(), more) == Step(old(Now()), e)
    {
      match e
      case Key(text) => more := OnKey(text);
      case StartObject => more := OnStartObject();
      case EndObject => more := OnEndObject();
      case Value => more := OnValue();
      case StartArray => more := OnValue();
      case EndArray => more := OnValue();
    }
  }

  /** `has_duplicate_known_fields` for a document: true exactly when the tree repeats a known field. */
  method HasDuplicateKnownFields(document: Json) returns (r: bool)
    ensures r <==> Duplicated(document)
  {
    var events := Events(document);
    var sax := new DuplicateKnownFieldSax();
    var valid := true;
    var i := 0;
    while i < |events| && valid
      invariant 0 <= i <= |events|
      invariant Flagged(INITIAL, events) == if valid then Flagged(sax.Now(), events[i..]) else true
    {
      assert events[i..][1..] == events[i + 1..];
      valid := sax.Dispatch(events[i]);
      i := i + 1;
    }
    CheckerExact(document);
    return !valid || sax.duplicate;
  }

  // ----- the tree definition -------------------------------------------------------------------------

  /** Some field of the given set occurs twice among the members. */
  ghost predicate Repeats(members: seq<Member>, fields: set<string>) {
    exists i, j :: 0 <= i < j < |members| && members[i].key == members[j].key && members[i].key in fields
  }

  function SectionFields(key: string): set<string> {
    if key == "left_uniforms" || key == "right_uniforms" then CAMERA_FIELDS
    else if key == "params" then PARAMS_FIELDS
    else if key == "field_roi" then ROI_FIELDS
    else {}
  }

  /** A root object repeats one of its own known fields, or one of its camera, params or region objects
      does.  An array at the top, which the automaton does not track, makes roots of its elements. */
  ghost predicate Duplicated(j: Json)
    decreases j
  {
    match j
    case Scalar => false
    case Array(items) => exists i :: 0 <= i < |items| && Duplicated(items[i])
    case Object(members) =>
      || Repeats(members, ROOT_FIELDS)
      || exists i :: 0 <= i < |members| && members[i].value.Object?
                     && Repeats(members[i].value.members, SectionFields(members[i].key))
  }

  // ----- between the two: the tree walked with path strings -----------------------------------------

  /** `path` is what an object here is called, `inner` what one inside an array here is called. */
  predicate FlagValue(j: Json, path: string, inner: string)
    decreases j, 0
  {
    match j
    case Scalar => false
    case Array(items) => FlagItems(items, inner)
    case Object(members) => FlagMembers(members, path, {})
  }

  predicate FlagItems(items: seq<Json>, inner: string)
    decreases items, 1
  {
    items != [] && (FlagValue(items[0], inner, inner) || FlagItems(items[1..], inner))
  }

  predicate FlagMembers(members: seq<Member>, path: string, seen: set<string>)
    decreases members, 1
  {
    members != [] &&
    var key := members[0].key;
    || (key in KnownFields(path) && key in seen)
    || FlagValue(members[0].value, path + "." + key, path + "[]")
    || FlagMembers(members[1..], path, if key in KnownFields(path) then seen + {key} else seen)
  }

  function InnerPath(s: State): string {
    if s.objects == [] then "$" else s.objects[|s.objects| - 1].path + "[]"
  }

  /** The automaton stops inside a value exactly when the walk flags it; otherwise it comes out of the
      value in the state it entered, with the key consumed. */
  lemma {:induction false} ValueRun(j: Json, s: State, rest: seq<Event>)
    requires !s.duplicate
    ensures Flagged(s, Events(j) + rest)
         == (FlagValue(j, s.ObjectPath(), InnerPath(s)) || Flagged(s.(pending := None), rest))
    decreases j, 0
  {
    match j
    case Scalar =>
      assert ([Value] + rest)[1..] == rest;
    case Array(items) =>
      var body := ItemEvents(items);
      var s1 := s.(pending := None);
      assert (Events(j) + rest)[1..] == body + ([EndArray] + rest);
      assert ([EndArray] + rest)[1..] == rest;
      ItemsRun(items, s1, [EndArray] + rest);
    case Object(members) =>
      var body := MemberEvents(members);
      var s1 := State(s.objects + [Context(s.ObjectPath(), {})], None, false);
      assert (Events(j) + rest)[1..] == body + ([EndObject] + rest);
      assert ([EndObject] + rest)[1..] == rest;
      MembersRun(members, s1, rest);
      assert s1.objects[..|s1.objects| - 1] == s.objects;
  }

  lemma {:induction false} ItemsRun(items: seq<Json>, s: State, rest: seq<Event>)
    requires !s.duplicate && s.pending.None?
    ensures Flagged(s, ItemEvents(items) + rest) == (FlagItems(items, InnerPath(s)) || Flagged(s, rest))
    decreases items, 1
  {
    if items == [] {
      assert ItemEvents(items) + rest == rest;
    } else {
      assert ItemEvents(items) + rest == Events(items[0]) + (ItemEvents(items[1..]) + rest);
      ValueRun(items[0], s, ItemEvents(items[1..]) + rest);
      assert s.(pending := None) == s;
      ItemsRun(items[1..], s, rest);
    }
  }

  lemma {:induction false} MembersRun(members: seq<Member>, s: State, rest: seq<Event>)
    requires !s.duplicate && s.pending.None? && s.objects != []
    ensures var top := s.objects[|s.objects| - 1];
      Flagged(s, MemberEvents(members) + ([EndObject] + rest))
      == (FlagMembers(members, top.path, top.seen)
          || Flagged(State(s.objects[..|s.objects| - 1], None, false), rest))
    decreases members, 1
  {
    var last := |s.objects| - 1;
    var top := s.objects[last];
    var tail := [EndObject] + rest;
    if members == [] {
      assert MemberEvents(members) + tail == tail;
      assert tail[1..] == rest;
    } else {
      var key := members[0].key;
      var more := MemberEvents(members[1..]) + tail;
      var events := MemberEvents(members) + tail;
      assert events == [Key(key)] + (Events(members[0].value) + more);
      assert events[1..] == Events(members[0].value) + more;
      var (s1, on) := Step(s, Key(key));
      if on {
        ValueRun(members[0].value, s1, more);
        MembersRun(members[1..], s1.(pending := None), rest);
        assert s1.objects[..last] == s.objects[..last];
      }
    }
  }

  // ----- path strings name places uniquely ------------------------------------------------------------

  /** Below the root only the four section paths have known fields. */
  lemma {:induction false} ChildPath(key: string)
    ensures KnownFields("$" + "." + key) == SectionFields(key)
  {
    forall name: string ensures "$" + "." + key == "$." + name <==> key == name {
      assert ("$" + "." + key)[2..] == key && ("$." + name)[2..] == name;
    }
    assert "$.left_uniforms" == "$." + "left_uniforms";
    assert "$.right_uniforms" == "$." + "right_uniforms";
    assert "$.params" == "$." + "params";
    assert "$.field_roi" == "$." + "field_roi";
  }

  ghost predicate DotAt(path: string, i: nat) { i < |path| && path[i] == '.' }

  /** A path that is not the root's has no descendant with known fields, by member or by element. */
  lemma {:induction false} DeepPath(path: string, key: string)
    requires |path| >= 2
    ensures KnownFields(path + "." + key) == {} && KnownFields(path + "[]") == {}
  {
    var deep, element := path + "." + key, path + "[]";
    assert DotAt(deep, |path|);
    NoInnerDot("$.left_uniforms");
    NoInnerDot("$.right_uniforms");
    NoInnerDot("$.params");
    NoInnerDot("$.field_roi");
    assert element[|element| - 1] == ']';
  }

  lemma {:induction false} NoInnerDot(path: string)
    requires path in {"$.left_uniforms", "$.right_uniforms", "$.params", "$.field_roi"}
    ensures forall i :: 2 <= i ==> !DotAt(path, i)
    ensures path[|path| - 1] != ']' && path != "$"
  {
  }

  lemma {:induction false} DeepUnflagged(j: Json, path: string, inner: string)
    requires |path| >= 2 && |inner| >= 2 && KnownFields(path) == {} && KnownFields(inner) == {}
    ensures !FlagValue(j, path, inner)
    decreases j, 0
  {
    match j
    case Scalar =>
    case Array(items) => DeepItems(items, inner);
    case Object(members) => DeepMembers(members, path);
  }

  lemma {:induction false} DeepItems(items: seq<Json>, inner: string)
    requires |inner| >= 2 && KnownFields(inner) == {}
    ensures !FlagItems(items, inner)
    decreases items, 1
  {
    if items != [] {
      DeepUnflagged(items[0], inner, inner);
      DeepItems(items[1..], inner);
    }
  }

  lemma {:induction false} DeepMembers(members: seq<Member>, path: string)
    requires |path| >= 2 && KnownFields(path) == {}
    ensures !FlagMembers(members, path, {})
    decreases members, 1
  {
    if members != [] {
      DeepPath(path, members[0].key);
      DeepUnflagged(members[0].value, path + "." + members[0].key, path + "[]");
      DeepMembers(members[1..], path);
    }
  }

  ghost predicate RepeatsOrSeen(members: seq<Member>, fields: set<string>, seen: set<string>) {
    || Repeats(members, fields)
    || exists i :: 0 <= i < |members| && members[i].key in fields && members[i].key in seen
  }

  lemma {:induction false} RepeatsStep(members: seq<Member>, fields: set<string>, seen: set<string>)
    requires members != []
    ensures var key := members[0].key;
      RepeatsOrSeen(members, fields, seen)
      <==> (key in fields && key in seen)
           || RepeatsOrSeen(members[1..], fields, if key in fields then seen + {key} else seen)
  {
    var key, tail := members[0].key, members[1..];
    var seen' := if key in fields then seen + {key} else seen;
    if RepeatsOrSeen(members, fields, seen) && !(key in fields && key in seen) {
      if i :| 0 <= i < |members| && members[i].key in fields && members[i].key in seen {
        assert tail[i - 1] == members[i];
      } else {
        var i, j :| 0 <= i < j < |members| && members[i].key == members[j].key && members[i].key in fields;
        assert tail[j - 1] == members[j];
        if i > 0 { assert tail[i - 1] == members[i]; }
      }
    }
    if RepeatsOrSeen(tail, fields, seen') {
      if i, j :| 0 <= i < j < |tail| && tail[i].key == tail[j].key && tail[i].key in fields {
        assert members[i + 1] == tail[i] && members[j + 1] == tail[j];
      } else {
        var i :| 0 <= i < |tail| && tail[i].key in fields && tail[i].key in seen';
        assert members[i + 1] == tail[i];
      }
    }
  }

  /** One level below the root: no child has known fields, so only repetition counts. */
  lemma {:induction false} SectionFlagged(members: seq<Member>, path: string, seen: set<string>)
    requires |path| >= 2
    ensures FlagMembers(members, path, seen) <==> RepeatsOrSeen(members, KnownFields(path), seen)
  {
    if members != [] {
      var key := members[0].key;
      DeepPath(path, key);
      DeepUnflagged(members[0].value, path + "." + key, path + "[]");
      RepeatsStep(members, KnownFields(path), seen);
      SectionFlagged(members[1..], path, if key in KnownFields(path) then seen + {key} else seen);
    }
  }

  ghost predicate SectionRepeats(member: Member) {
    member.value.Object? && Repeats(member.value.members, SectionFields(member.key))
  }

  lemma {:induction false} ChildFlagged(member: Member)
    ensures FlagValue(member.value, "$" + "." + member.key, "$" + "[]") <==> SectionRepeats(member)
  {
    var path := "$" + "." + member.key;
    ChildPath(member.key);
    match member.value
    case Scalar =>
    case Array(items) =>
      assert KnownFields("$[]") == {};
      DeepItems(items, "$" + "[]");
    case Object(members) =>
      SectionFlagged(members, path, {});
      assert !exists i :: 0 <= i < |members| && members[i].key in KnownFields(path) && members[i].key in {};
  }

  lemma {:induction false} RootFlagged(members: seq<Member>, seen: set<string>)
    ensures FlagMembers(members, "$", seen)
      <==> RepeatsOrSeen(members, ROOT_FIELDS, seen)
           || exists i :: 0 <= i < |members| && SectionRepeats(members[i])
  {
    if members != [] {
      var key := members[0].key;
      ChildFlagged(members[0]);
      RepeatsStep(members, ROOT_FIELDS, seen);
      RootFlagged(members[1..], if key in ROOT_FIELDS then seen + {key} else seen);
      assert forall i :: 0 < i < |members| ==> members[i] == members[1..][i - 1];
    }
  }

  lemma {:induction false} TopFlagged(j: Json)
    ensures FlagValue(j, "$", "$") <==> Duplicated(j)
    decreases j, 0
  {
    match j
    case Scalar =>
    case Array(items) => TopItems(items);
    case Object(members) =>
      RootFlagged(members, {});
      assert !exists i :: 0 <= i < |members| && members[i].key in ROOT_FIELDS && members[i].key in {};
      assert forall i :: 0 <= i < |members| ==>
        (SectionRepeats(members[i]) <==>
         members[i].value.Object? && Repeats(members[i].value.members, SectionFields(members[i].key)));
  }

  lemma {:induction false} TopItems(items: seq<Json>)
    ensures FlagItems(items, "$") <==> exists i :: 0 <= i < |items| && Duplicated(items[i])
    decreases items, 1
  {
    if items != [] {
      TopFlagged(items[0]);
      TopItems(items[1..]);
      assert forall i :: 0 < i < |items| ==> items[i] == items[1..][i - 1];
    }
  }

  /** The main theorem: on the events of any document the automaton flags exactly the repeated known
      fields, however deep the objects and arrays around and inside them. */
  lemma {:induction false} CheckerExact(document: Json)
    ensures Flagged(INITIAL, Events(document)) <==> Duplicated(document)
  {
    ValueRun(document, INITIAL, []);
    assert Events(document) + [] == Events(document);
    TopFlagged(document);
  }
}
