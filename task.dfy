/** The Task entity: its fields and defaults, setters and getters, the two
    lifecycle hooks (the clock reading is a parameter), its validation
    constraints, and BaseEntity::fill run over it with a static table of its
    setters in place of reflection. */
module TaskEntity {
  import opened Php
  import opened BaseEntity
  import opened ErrorResponses

  /** A clock reading (a DateTimeImmutable). */
  type Time = int

  /** The id of a User. */
  type UserId = int

  /** The values of a Task's fields. */
  datatype TaskState = TaskState(
    id: Option<int>,
    title: Option<string>,
    description: Option<string>,
    isDone: Option<bool>,
    createdAt: Option<Time>,
    updatedAt: Option<Time>,
    owner: Option<UserId>)

  /** The field values of `new Task()`. */
  function NewTask(): TaskState
  {
    TaskState(None, None, None, Some(false), None, None, None)
  }

  // ---------------------------------------------------------------------
  // Validation constraints

  const TitleMaxLength := 255
  const DescriptionMaxLength := 1000

  const TitleRequired := "Title is required"
  const TitleTooShort := "Title must be at least 1 characters long"
  const TitleTooLong := "Title cannot be longer than 255 characters"
  const DescriptionTooLong := "Description cannot be longer than 1000 characters"
  const IsDoneRequired := "isDone field is required"

  predicate TitleOk(t: TaskState)
  {
    t.title.Some? && 1 <= |t.title.value| <= TitleMaxLength
  }

  predicate DescriptionOk(t: TaskState)
  {
    t.description.None? || |t.description.value| <= DescriptionMaxLength
  }

  predicate IsDoneOk(t: TaskState)
  {
    t.isDone.Some?
  }

  /** A task that satisfies all its declared constraints. */
  predicate Valid(t: TaskState)
  {
    TitleOk(t) && DescriptionOk(t) && IsDoneOk(t)
  }

  /** NotBlank, then Length(min: 1, max: 255) on title. NotBlank rejects null
      and ""; Length skips null and tests the upper bound first. */
  function TitleViolations(title: Option<string>): seq<ConstraintViolation>
  {
    var notBlank :=
      if title.None? || title.value == "" then [ConstraintViolation("title", TitleRequired)] else [];
    var length :=
      if title.None? then []
      else if |title.value| > TitleMaxLength then [ConstraintViolation("title", TitleTooLong)]
      else if |title.value| < 1 then [ConstraintViolation("title", TitleTooShort)]
      else [];
    notBlank + length
  }

  /** Length(max: 1000) on description, which skips null. */
  function DescriptionViolations(description: Option<string>): seq<ConstraintViolation>
  {
    if description.Some? && |description.value| > DescriptionMaxLength
    then [ConstraintViolation("description", DescriptionTooLong)]
    else []
  }

  /** NotNull on isDone (its Type(bool) constraint cannot fail on a bool). */
  function IsDoneViolations(isDone: Option<bool>): seq<ConstraintViolation>
  {
    if isDone.None? then [ConstraintViolation("isDone", IsDoneRequired)] else []
  }

  /** What the validator reports for a task: every violated constraint, in
      the order the properties and their constraints are declared. */
  function Violations(t: TaskState): seq<ConstraintViolation>
  {
    TitleViolations(t.title) + DescriptionViolations(t.description) + IsDoneViolations(t.isDone)
  }

  predicate ReportsProperty(vs: seq<ConstraintViolation>, path: string)
  {
    exists i :: 0 <= i < |vs| && vs[i].propertyPath == path
  }

  predicate AllAbout(vs: seq<ConstraintViolation>, path: string)
  {
    forall i :: 0 <= i < |vs| ==> vs[i].propertyPath == path
  }

  lemma ReportsConcat(a: seq<ConstraintViolation>, b: seq<ConstraintViolation>, path: string)
    ensures ReportsProperty(a + b, path) <==> ReportsProperty(a, path) || ReportsProperty(b, path)
  {
    if ReportsProperty(a + b, path) {
      var i :| 0 <= i < |a + b| && (a + b)[i].propertyPath == path;
      if i >= |a| {
        assert b[i - |a|] == (a + b)[i];
      }
    }
    if ReportsProperty(a, path) {
      var i :| 0 <= i < |a| && a[i].propertyPath == path;
      assert (a + b)[i] == a[i];
    }
    if ReportsProperty(b, path) {
      var i :| 0 <= i < |b| && b[i].propertyPath == path;
      assert (a + b)[|a| + i] == b[i];
    }
  }

  lemma ConcatAbout(a: seq<ConstraintViolation>, b: seq<ConstraintViolation>, p: string, q: string)
    requires AllAbout(a, p) && AllAbout(b, q)
    ensures forall i :: 0 <= i < |a + b| ==> (a + b)[i].propertyPath in {p, q}
  {
  }

  /** Each property's own constraints report it, and only it, exactly when
      one of them fails. */
  lemma PropertyViolations(t: TaskState)
    ensures AllAbout(TitleViolations(t.title), "title")
    ensures AllAbout(DescriptionViolations(t.description), "description")
    ensures AllAbout(IsDoneViolations(t.isDone), "isDone")
    ensures TitleViolations(t.title) == [] <==> TitleOk(t)
    ensures DescriptionViolations(t.description) == [] <==> DescriptionOk(t)
    ensures IsDoneViolations(t.isDone) == [] <==> IsDoneOk(t)
  {
  }

  lemma AboutOther(vs: seq<ConstraintViolation>, p: string, q: string)
    requires AllAbout(vs, p) && p != q
    ensures !ReportsProperty(vs, q)
    ensures ReportsProperty(vs, p) <==> vs != []
  {
    if vs != [] {
      assert vs[0].propertyPath == p;
    }
  }

  /** The validator reports every broken constraint and only those: a
      property is named exactly when its constraint fails, no other property
      is named, and the report is empty exactly for valid tasks. */
  lemma ViolationsMatchConstraints(t: TaskState)
    ensures ReportsProperty(Violations(t), "title") <==> !TitleOk(t)
    ensures ReportsProperty(Violations(t), "description") <==> !DescriptionOk(t)
    ensures ReportsProperty(Violations(t), "isDone") <==> !IsDoneOk(t)
    ensures forall i :: 0 <= i < |Violations(t)| ==>
              Violations(t)[i].propertyPath in {"title", "description", "isDone"}
    ensures Violations(t) == [] <==> Valid(t)
  {
    var a, b, c := TitleViolations(t.title), DescriptionViolations(t.description), IsDoneViolations(t.isDone);
    PropertyViolations(t);
    AboutOther(a, "title", "description");
    AboutOther(a, "title", "isDone");
    AboutOther(b, "description", "title");
    AboutOther(b, "description", "isDone");
    AboutOther(c, "isDone", "title");
    AboutOther(c, "isDone", "description");
    ReportsConcat(a, b, "title");
    ReportsConcat(a, b, "description");
    ReportsConcat(a, b, "isDone");
    ReportsConcat(a + b, c, "title");
    ReportsConcat(a + b, c, "description");
    ReportsConcat(a + b, c, "isDone");
    ConcatAbout(a, b, "title", "description");
    assert forall i :: 0 <= i < |a + b + c| ==> (a + b + c)[i] == if i < |a + b| then (a + b)[i] else c[i - |a + b|];
  }

  /** An empty title breaks both title constraints, and both are reported. */
  lemma EmptyTitleReportsBoth(t: TaskState)
    requires t.title == Some("")
    ensures Violations(t)[..2] == [ConstraintViolation("title", TitleRequired), ConstraintViolation("title", TitleTooShort)]
  {
  }

  // ---------------------------------------------------------------------
  // The setter table that replaces reflection

  /** The methods of Task whose names start with "set". */
  datatype Setter =
    | SetsTitle | SetsDescription | SetsIsDone | SetsCreatedAt | SetsUpdatedAt | SetsOwner
    | CreatedAtHook | UpdatedAtHook

  const Setters: seq<Setter> :=
    [SetsTitle, SetsDescription, SetsIsDone, SetsCreatedAt, SetsUpdatedAt, SetsOwner,
     CreatedAtHook, UpdatedAtHook]

  /** The declared parameter types, as reflection reports them. */
  function Parameters(s: Setter): seq<ParamType>
  {
    match s
    case SetsTitle => [Named(StringKind, false)]
    case SetsDescription => [Named(StringKind, true)]
    case SetsIsDone => [Named(BoolKind, false)]
    case SetsCreatedAt => [Named(ClassKind("DateTimeImmutable"), true)]
    case SetsUpdatedAt => [Named(ClassKind("DateTimeImmutable"), true)]
    case SetsOwner => [Named(ClassKind("User"), true)]
    case CreatedAtHook => []
    case UpdatedAtHook => []
  }

  /** The setter's name in lower case: PHP compares method names without
      regard to ASCII case, so this is the form `method_exists` matches
      (setTitle, setDescription, setIsDone, setCreatedAt, setUpdatedAt,
      setOwner, setCreatedAtValue, setUpdatedAtValue). */
  function MethodName(s: Setter): string
  {
    match s
    case SetsTitle => "settitle"
    case SetsDescription => "setdescription"
    case SetsIsDone => "setisdone"
    case SetsCreatedAt => "setcreatedat"
    case SetsUpdatedAt => "setupdatedat"
    case SetsOwner => "setowner"
    case CreatedAtHook => "setcreatedatvalue"
    case UpdatedAtHook => "setupdatedatvalue"
  }

  lemma SettersComplete(s: Setter)
    ensures s in Setters
  {
  }

  function FindIn(ss: seq<Setter>, field: string): (r: Option<Setter>)
    ensures r.Some? ==> r.value in ss && MethodName(r.value) == Lower(SetterName(field))
    ensures r.None? ==> forall s :: s in ss ==> MethodName(s) != Lower(SetterName(field))
  {
    if ss == [] then None
    else if MethodName(ss[0]) == Lower(SetterName(field)) then Some(ss[0])
    else FindIn(ss[1..], field)
  }

  /** `method_exists($this, 'set' . ucfirst($field))`, with the method found. */
  function FindSetter(field: string): Option<Setter>
  {
    FindIn(Setters, field)
  }

  /** The new field values after a setter with a parameter receives a value
      its parameter admits. */
  function Store(st: TaskState, s: Setter, v: Value): TaskState
    requires |Parameters(s)| > 0 && Admits(Parameters(s)[0], v)
  {
    match s
    case SetsTitle => st.(title := Some(v.s))
    case SetsDescription => st.(description := if v.Null? then None else Some(v.s))
    case SetsIsDone => st.(isDone := Some(v.b))
    case SetsCreatedAt => st.(createdAt := None)
    case SetsUpdatedAt => st.(updatedAt := None)
    case SetsOwner => st.(owner := None)
  }

  /** Where fill stops: Threw when a setter call raised a TypeError, with the
      fields as they were at that moment. */
  datatype FillResult = Filled(state: TaskState) | Threw(state: TaskState)

  /** A setter with a parameter called with the converted value. */
  function Apply(st: TaskState, s: Setter, value: Value): FillResult
    requires |Parameters(s)| > 0
  {
    var converted := ConvertValue(value, Parameters(s)[0]);
    if Admits(Parameters(s)[0], converted) then Filled(Store(st, s, converted)) else Threw(st)
  }

  /** One iteration of fill's loop, for one key and its value. */
  function FillStep(st: TaskState, field: string, value: Value): FillResult
  {
    match FindSetter(field)
    case None => Filled(st)
    case Some(s) => if |Parameters(s)| == 0 then Filled(st) else Apply(st, s, value)
  }

  /** fill over an array's entries, key by key in order. For pairs that
      repeat a key, the entries are those of `ArrayEntries`. */
  function FillSpec(st: TaskState, data: PhpArray): FillResult
    decreases |data|
  {
    if data == [] then Filled(st)
    else
      match FillSpec(st, data[..|data| - 1])
      case Threw(s) => Threw(s)
      case Filled(s) => FillStep(s, data[|data| - 1].0, data[|data| - 1].1)
  }

  /** The setters the keys of data name. */
  function Touched(data: PhpArray): set<Setter>
  {
    set i | 0 <= i < |data| && FindSetter(data[i].0).Some? :: FindSetter(data[i].0).value
  }

  /** a and b agree on id and on every field whose setter is not in touched. */
  predicate UnchangedExcept(a: TaskState, b: TaskState, touched: set<Setter>)
  {
    && a.id == b.id
    && (SetsTitle !in touched ==> a.title == b.title)
    && (SetsDescription !in touched ==> a.description == b.description)
    && (SetsIsDone !in touched ==> a.isDone == b.isDone)
    && (SetsCreatedAt !in touched ==> a.createdAt == b.createdAt)
    && (SetsUpdatedAt !in touched ==> a.updatedAt == b.updatedAt)
    && (SetsOwner !in touched ==> a.owner == b.owner)
  }

  /** What a setter call does, in PHP's terms: title and description
      receive the value's string cast (null clears description); isDone
      receives convertToBool; the object-typed setters accept only null and
      otherwise raise a TypeError. */
  lemma ApplyEffect(st: TaskState, s: Setter, v: Value)
    requires |Parameters(s)| > 0
    ensures s == SetsTitle ==> Apply(st, s, v) == Filled(st.(title := Some(StringCast(v))))
    ensures s == SetsDescription ==>
              Apply(st, s, v) == Filled(st.(description := if v.Null? then None else Some(StringCast(v))))
    ensures s == SetsIsDone ==> Apply(st, s, v) == Filled(st.(isDone := Some(ConvertToBool(v))))
    ensures s == SetsCreatedAt ==>
              Apply(st, s, v) == if v.Null? then Filled(st.(createdAt := None)) else Threw(st)
    ensures s == SetsUpdatedAt ==>
              Apply(st, s, v) == if v.Null? then Filled(st.(updatedAt := None)) else Threw(st)
    ensures s == SetsOwner ==>
              Apply(st, s, v) == if v.Null? then Filled(st.(owner := None)) else Threw(st)
  {
    match s
    case SetsTitle =>
    case SetsDescription =>
    case SetsIsDone =>
    case SetsCreatedAt =>
    case SetsUpdatedAt =>
    case SetsOwner =>
  }

  /** A key without a setter, or naming a lifecycle hook (which takes no
      parameter), changes nothing. */
  lemma FillStepSkips(st: TaskState, field: string, v: Value)
    requires FindSetter(field).None? || FindSetter(field).value in {CreatedAtHook, UpdatedAtHook}
    ensures FillStep(st, field, v) == Filled(st)
  {
    match FindSetter(field)
    case None =>
    case Some(s) => assert Parameters(s) == [];
  }

  lemma FillStepTouchesOneField(st: TaskState, field: string, v: Value)
    ensures UnchangedExcept(st, FillStep(st, field, v).state,
                            if FindSetter(field).Some? then {FindSetter(field).value} else {})
  {
    match FindSetter(field)
    case None =>
    case Some(s) =>
      if |Parameters(s)| > 0 {
        ApplyEffect(st, s, v);
      }
  }

  lemma UnchangedExceptChain(a: TaskState, b: TaskState, c: TaskState, s1: set<Setter>, s2: set<Setter>, s: set<Setter>)
    requires UnchangedExcept(a, b, s1) && UnchangedExcept(b, c, s2)
    requires s1 <= s && s2 <= s
    ensures UnchangedExcept(a, c, s)
  {
  }

  lemma TouchedGrows(data: PhpArray)
    requires data != []
    ensures Touched(data[..|data| - 1]) <= Touched(data)
    ensures FindSetter(data[|data| - 1].0).Some? ==> FindSetter(data[|data| - 1].0).value in Touched(data)
  {
    var prefix := data[..|data| - 1];
    forall s | s in Touched(prefix) ensures s in Touched(data) {
      var i :| 0 <= i < |prefix| && FindSetter(prefix[i].0).Some? && FindSetter(prefix[i].0).value == s;
      assert data[i] == prefix[i];
    }
  }

  /** fill changes only the fields whose setters its keys name, and never
      the id (Task has no setId). */
  lemma {:induction false} FillTouchesOnlyNamedFields(st: TaskState, data: PhpArray)
    ensures UnchangedExcept(st, FillSpec(st, data).state, Touched(data))
    decreases |data|
  {
    if data != [] {
      var prefix := data[..|data| - 1];
      var field, v := data[|data| - 1].0, data[|data| - 1].1;
      FillTouchesOnlyNamedFields(st, prefix);
      TouchedGrows(data);
      var mid := FillSpec(st, prefix).state;
      if FillSpec(st, prefix).Filled? {
        FillStepTouchesOneField(mid, field, v);
        var last: set<Setter> := if FindSetter(field).Some? then {FindSetter(field).value} else {};
        UnchangedExceptChain(st, mid, FillStep(mid, field, v).state, Touched(prefix), last, Touched(data));
      }
    }
  }

  /** One more key: fill runs one more step on where it had got to. */
  lemma FillSpecExtend(st: TaskState, data: PhpArray, i: nat)
    requires i < |data| && FillSpec(st, data[..i]).Filled?
    ensures FillSpec(st, data[..i + 1]) == FillStep(FillSpec(st, data[..i]).state, data[i].0, data[i].1)
  {
    assert data[..i + 1][..i] == data[..i];
  }

  /** Once a setter call has thrown, the later keys are never reached. */
  lemma {:induction false} FillStopsAtThrow(st: TaskState, data: PhpArray, k: nat)
    requires k <= |data| && FillSpec(st, data[..k]).Threw?
    ensures FillSpec(st, data) == FillSpec(st, data[..k])
    decreases |data| - k
  {
    if k < |data| {
      assert data[..k + 1][..k] == data[..k];
      FillStopsAtThrow(st, data, k + 1);
    } else {
      assert data[..k] == data;
    }
  }

  /** Keys that name no setter taking a parameter are ignored altogether. */
  lemma {:induction false} FillIgnoresUnknownFields(st: TaskState, data: PhpArray)
    requires forall i :: 0 <= i < |data| ==>
               FindSetter(data[i].0).None? || |Parameters(FindSetter(data[i].0).value)| == 0
    ensures FillSpec(st, data) == Filled(st)
    decreases |data|
  {
    if data != [] {
      FillIgnoresUnknownFields(st, data[..|data| - 1]);
    }
  }

  lemma MethodNamesDistinct(s1: Setter, s2: Setter)
    requires MethodName(s1) == MethodName(s2)
    ensures s1 == s2
  {
    var n1, n2 := MethodName(s1), MethodName(s2);
    assert |n1| == |n2| && n1[3] == n2[3];
  }

  /** The lookup finds the setter whose name matches, ignoring case. */
  lemma FindSetterFinds(field: string, s: Setter)
    requires MethodName(s) == "set" + Lower(field)
    ensures FindSetter(field) == Some(s)
  {
    SetterNameLower(field);
    SettersComplete(s);
    var r := FindSetter(field);
    MethodNamesDistinct(r.value, s);
  }

  /** A one-key array whose key names a setter with a parameter: fill is
      that setter's call. */
  lemma FillSingle(st: TaskState, field: string, v: Value, s: Setter)
    requires FindSetter(field) == Some(s) && |Parameters(s)| > 0
    ensures FillSpec(st, [(field, v)]) == Apply(st, s, v)
  {
    assert [(field, v)][..0] == [];
  }

  /** A key naming setIsDone (by FindSetterFinds, isDone spelt in any case)
      sets isDone to convertToBool of the value. */
  lemma FillIsDoneKey(st: TaskState, field: string, v: Value)
    requires FindSetter(field) == Some(SetsIsDone)
    ensures FillSpec(st, [(field, v)]) == Filled(st.(isDone := Some(ConvertToBool(v))))
  {
    FillSingle(st, field, v, SetsIsDone);
    ApplyEffect(st, SetsIsDone, v);
  }

  /** A key naming setTitle sets the title to the value's string cast, so
      an integer title is stringified. */
  lemma FillTitleKey(st: TaskState, field: string, v: Value)
    requires FindSetter(field) == Some(SetsTitle)
    ensures FillSpec(st, [(field, v)]) == Filled(st.(title := Some(StringCast(v))))
  {
    FillSingle(st, field, v, SetsTitle);
    ApplyEffect(st, SetsTitle, v);
  }

  /** A key naming setOwner: a non-null value throws, leaving the task as it
      was; null clears the owner. */
  lemma FillOwnerKey(st: TaskState, field: string, v: Value)
    requires FindSetter(field) == Some(SetsOwner)
    ensures v.Null? ==> FillSpec(st, [(field, v)]) == Filled(st.(owner := None))
    ensures !v.Null? ==> FillSpec(st, [(field, v)]) == Threw(st)
  {
    FillSingle(st, field, v, SetsOwner);
    ApplyEffect(st, SetsOwner, v);
  }

  /** A repeated key is one entry holding the last value: an owner key sent
      first as a non-null value and then as null clears the owner, where
      visiting the two pairs one by one would have thrown at the first. */
  lemma RepeatedKeyLastValueWins(st: TaskState, field: string, v: Value)
    requires FindSetter(field) == Some(SetsOwner)
    ensures !v.Null? ==> FillSpec(st, [(field, v), (field, Null)]) == Threw(st)
    ensures FillSpec(st, ArrayEntries([(field, v), (field, Null)])) == Filled(st.(owner := None))
  {
    var a := [(field, v), (field, Null)];
    var ks := KeysInOrder(a);
    assert ks == [field] by {
      assert KeysInOrder(a[..1]) == [field];
    }
    assert ArrayEntries(a) == [(field, Null)];
    FillOwnerKey(st, field, Null);
    if !v.Null? {
      assert a[..1] == [(field, v)];
      FillOwnerKey(st, field, v);
    }
  }

  // ---------------------------------------------------------------------
  // The entity

  class Task {
    var id: Option<int>
    var title: Option<string>
    var description: Option<string>
    var isDone: Option<bool>
    var createdAt: Option<Time>
    var updatedAt: Option<Time>
    var owner: Option<UserId>

    function State(): TaskState
      reads this
    {
      TaskState(id, title, description, isDone, createdAt, updatedAt, owner)
    }

    /** `new Task()`: every field null except isDone, which is false. */
    constructor ()
      ensures State() == NewTask()
      ensures GetTitle().None? && GetDescription().None? && IsDone() == Some(false)
      ensures GetCreatedAt().None? && GetUpdatedAt().None? && GetOwner().None?
    {
      id, title, description, isDone := None, None, None, Some(false);
      createdAt, updatedAt, owner := None, None, None;
    }

    /** A Task as Doctrine loads it from a persisted row. */
    constructor FromRow(row: TaskState)
      ensures State() == row
    {
      id, title, description, isDone := row.id, row.title, row.description, row.isDone;
      createdAt, updatedAt, owner := row.createdAt, row.updatedAt, row.owner;
    }

    function GetId(): Option<int> reads this { id }
    function GetTitle(): Option<string> reads this { title }
    function GetDescription(): Option<string> reads this { description }
    function IsDone(): Option<bool> reads this { isDone }
    function GetIsDone(): Option<bool> reads this { isDone }
    function GetCreatedAt(): Option<Time> reads this { createdAt }
    function GetUpdatedAt(): Option<Time> reads this { updatedAt }
    function GetOwner(): Option<UserId> reads this { owner }

    method SetTitle(title: string) returns (r: Task)
      modifies this
      ensures r == this && GetTitle() == Some(title)
      ensures State() == old(State()).(title := Some(title))
    {
      this.title := Some(title);
      r := this;
    }

    method SetDescription(description: Option<string>) returns (r: Task)
      modifies this
      ensures r == this && GetDescription() == description
      ensures State() == old(State()).(description := description)
    {
      this.description := description;
      r := this;
    }

    method SetIsDone(isDone: bool) returns (r: Task)
      modifies this
      ensures r == this && IsDone() == Some(isDone) && GetIsDone() == Some(isDone)
      ensures State() == old(State()).(isDone := Some(isDone))
    {
      this.isDone := Some(isDone);
      r := this;
    }

    method SetCreatedAt(createdAt: Option<Time>) returns (r: Task)
      modifies this
      ensures r == this && GetCreatedAt() == createdAt
      ensures State() == old(State()).(createdAt := createdAt)
    {
      this.createdAt := createdAt;
      r := this;
    }

    method SetUpdatedAt(updatedAt: Option<Time>) returns (r: Task)
      modifies this
      ensures r == this && GetUpdatedAt() == updatedAt
      ensures State() == old(State()).(updatedAt := updatedAt)
    {
      this.updatedAt := updatedAt;
      r := this;
    }

    method SetOwner(owner: Option<UserId>) returns (r: Task)
      modifies this
      ensures r == this && GetOwner() == owner
      ensures State() == old(State()).(owner := owner)
    {
      this.owner := owner;
      r := this;
    }

    /** The PrePersist hook: both timestamps become the clock reading. */
    method SetCreatedAtValue(now: Time)
      modifies this
      ensures GetCreatedAt() == Some(now) && GetUpdatedAt() == Some(now)
      ensures State() == old(State()).(createdAt := Some(now), updatedAt := Some(now))
    {
      createdAt := Some(now);
      updatedAt := Some(now);
    }

    /** The PreUpdate hook: only updatedAt moves. */
    method SetUpdatedAtValue(now: Time)
      modifies this
      ensures GetUpdatedAt() == Some(now) && GetCreatedAt() == old(GetCreatedAt())
      ensures State() == old(State()).(updatedAt := Some(now))
    {
      updatedAt := Some(now);
    }

    /** `$this->$setterMethod($convertedValue)` with a value convertValue has
        already converted for the parameter: the call raises a TypeError
        exactly when the parameter does not admit the value (after
        conversion, only the class-typed parameters can refuse one). */
    method Invoke(s: Setter, v: Value) returns (threw: bool)
      requires |Parameters(s)| > 0 && ConvertValue(v, Parameters(s)[0]) == v
      modifies this
      ensures threw == !Admits(Parameters(s)[0], v)
      ensures State() == if threw then old(State()) else Store(old(State()), s, v)
    {
      if !Admits(Parameters(s)[0], v) {
        return true;
      }
      threw := false;
      var r: Task;
      match s
      case SetsTitle => r := SetTitle(v.s);
      case SetsDescription => r := SetDescription(if v.Null? then None else Some(v.s));
      case SetsIsDone => r := SetIsDone(v.b);
      case SetsCreatedAt => r := SetCreatedAt(None);
      case SetsUpdatedAt => r := SetUpdatedAt(None);
      case SetsOwner => r := SetOwner(None);
    }

    /** BaseEntity::fill: for each entry of the array in order, the setter
        named after its key, if there is one with a parameter, receives the
        converted value. A TypeError from a setter ends the loop, leaving the
        earlier changes. */
    method Fill(data: PhpArray) returns (r: Task, threw: bool)
      modifies this
      ensures r == this
      ensures FillSpec(old(State()), ArrayEntries(data)) == if threw then Threw(State()) else Filled(State())
    {
      var entries := ArrayEntries(data);
      var i := 0;
      while i < |entries|
        invariant 0 <= i <= |entries|
        invariant FillSpec(old(State()), entries[..i]) == Filled(State())
      {
        var field, value := entries[i].0, entries[i].1;
        FillSpecExtend(old(State()), entries, i);
        var setter := FindSetter(field);
        if setter.Some? && |Parameters(setter.value)| > 0 {
          var converted := ConvertValue(value, Parameters(setter.value)[0]);
          ConvertValueIdempotent(value, Parameters(setter.value)[0]);
          threw := Invoke(setter.value, converted);
          if threw {
            FillStopsAtThrow(old(State()), entries, i + 1);
            return this, true;
          }
        }
        i := i + 1;
      }
      assert entries[..|entries|] == entries;
      return this, false;
    }
  }

  /** isDone() and getIsDone() read the same field. */
  lemma IsDoneGettersAgree(t: Task)
    ensures t.IsDone() == t.GetIsDone() == t.State().isDone
  {
  }
}
