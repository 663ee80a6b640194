/** Events and streams, and the decoding of one comma-separated event line's
    fields, which the Python and the Go text parsers share except for where
    a `sudo` line's argument goes. */
module Events {
  import opened Wrappers
  import opened Text

  const Ssh: string := "ssh"
  const Sudo: string := "sudo"
  const Dir: string := "dir"

  /** One event of a stream. `kind` is the wire type string: the handlers act
      on "ssh", "sudo" and "dir" and skip anything else. */
  datatype Event = Event(kind: string, name: string, passwd: string)

  datatype Stream = Stream(id: string, events: seq<Event>)

  /** Where a `sudo` line's single argument is stored: the Python parser puts
      it in `name`, the Go parser in `Passwd`. */
  datatype SudoSlot = SudoInName | SudoInPasswd

  predicate KnownKind(kind: string) {
    kind == Ssh || kind == Sudo || kind == Dir
  }

  /** The number of comma-separated fields, type included, that a line of a
      known kind needs. */
  function Arity(kind: string): nat
    requires KnownKind(kind)
  {
    if kind == Ssh then 3 else if kind == Sudo then 2 else 1
  }

  /** The shape of every event a text parser produces: `ssh` carries a name
      and a password, `sudo` one argument in its slot, `dir` nothing. */
  predicate Canonical(e: Event, slot: SudoSlot) {
    || e.kind == Ssh
    || (e.kind == Sudo && (if slot == SudoInName then e.passwd == "" else e.name == ""))
    || (e.kind == Dir && e.name == "" && e.passwd == "")
  }

  /** The fields a canonical event is written with, type first. */
  function Fields(e: Event, slot: SudoSlot): (parts: seq<string>)
    requires Canonical(e, slot)
    ensures |parts| == Arity(e.kind) && parts[0] == e.kind
  {
    if e.kind == Ssh then [Ssh, e.name, e.passwd]
    else if e.kind == Sudo then [Sudo, if slot == SudoInName then e.name else e.passwd]
    else [Dir]
  }

  /** An event from the comma-separated fields of one line. A line is kept
      exactly when its first field is a known type and it has at least the
      fields that type needs; fields past those are ignored. */
  function FromFields(parts: seq<string>, slot: SudoSlot): (r: Option<Event>)
    requires |parts| >= 1
    ensures r.Some? <==> KnownKind(parts[0]) && |parts| >= Arity(parts[0])
    ensures r.Some? ==> Canonical(r.value, slot) && Fields(r.value, slot) == parts[..Arity(parts[0])]
  {
    if parts[0] == Ssh then
      if |parts| >= 3 then Some(Event(Ssh, parts[1], parts[2])) else None
    else if parts[0] == Sudo then
      if |parts| >= 2 then
        Some(if slot == SudoInName then Event(Sudo, parts[1], "") else Event(Sudo, "", parts[1]))
      else None
    else if parts[0] == Dir then
      Some(Event(Dir, "", ""))
    else
      None
  }

  /** Decoding the fields an event is written with gives the event back. */
  lemma FromFieldsOfFields(e: Event, slot: SudoSlot)
    requires Canonical(e, slot)
    ensures FromFields(Fields(e, slot), slot) == Some(e)
  {
  }

  /** A field that survives being written into a line and read back. */
  predicate FieldOk(sp: SpaceSet, f: string) {
    && ',' !in f && '#' !in f && '\n' !in f
    && (f == "" || !IsSpace(sp, f[|f| - 1]))
  }

  predicate Writable(e: Event, slot: SudoSlot, sp: SpaceSet) {
    && Canonical(e, slot)
    && FieldOk(sp, e.name)
    && FieldOk(sp, e.passwd)
  }

  /** The text line an event is written as: its fields joined by commas. */
  function FormatLine(e: Event, slot: SudoSlot): string
    requires Canonical(e, slot)
  {
    Join(Fields(e, slot), ',')
  }

  /** A written line has no `#` or line break, starts with its type's first
      letter and does not end in whitespace, so neither stripping nor
      splitting by lines nor by `#` touches it. */
  lemma FormatLineShape(e: Event, slot: SudoSlot, sp: SpaceSet)
    requires Writable(e, slot, sp)
    ensures var line := FormatLine(e, slot);
            && |line| > 0
            && line[0] == e.kind[0]
            && !IsSpace(sp, line[|line| - 1])
            && '#' !in line && '\n' !in line
  {
    var parts := Fields(e, slot);
    var line := Join(parts, ',');
    JoinFirst(parts, ',');
    var last := parts[|parts| - 1];
    if last == "" {
      JoinEndsWithSeparator(parts, ',');
    } else {
      JoinLast(parts, ',');
    }
    forall k | 0 <= k < |parts|
      ensures '#' !in parts[k] && '\n' !in parts[k]
    {
    }
    JoinExcludes(parts, ',', '#');
    JoinExcludes(parts, ',', '\n');
  }

  /** Splitting a written line by commas gives back its fields, so decoding
      it gives back the event. */
  lemma FormatLineRoundTrip(e: Event, slot: SudoSlot, sp: SpaceSet)
    requires Writable(e, slot, sp)
    ensures Split(FormatLine(e, slot), ',') == Fields(e, slot)
    ensures FromFields(Split(FormatLine(e, slot), ','), slot) == Some(e)
  {
    var parts := Fields(e, slot);
    forall k | 0 <= k < |parts| ensures ',' !in parts[k] {
    }
    SplitJoin(parts, ',');
    FromFieldsOfFields(e, slot);
  }
}
