/** The LDIF change parser: ldifprotocol.py's line receiver and ldifdelta.py's
    states, as a class and as the function on states that it computes. */
module LdifDelta {
  import opened Options
  import opened Sequences
  import opened NameText
  import opened Ldif
  import opened Attributes
  import opened Operations

  datatype Mode =
    | HEADER
    | WAIT_FOR_DN
    | WAIT_FOR_CHANGETYPE
    | WAIT_FOR_MOD_SPEC
    | IN_MOD_SPEC
    | IN_ADD_ENTRY
    | IN_DELETE

  datatype ParseError =
    | LineWithoutSemicolon
    | NotImplemented
    | BadBase64Value
    | EntryStartsWithNonDN
    | EntryStartsWithSpace
    | VersionNotANumber
    | UnsupportedVersion
    | MissingChangeType
    | UnknownChangeType
    | UnknownModification
    | MissingEndDash
    | DifferentAttributeType
    | AddMissingAttributes
    | DeleteHasJunk
    | InvalidName

  /** The modification being read: its kind, attribute and values so far. */
  datatype ModSpec = ModSpec(kind: Kind, attribute: string, values: seq<string>)

  datatype State = State(
    mode: Mode,
    dn: string,
    data: map<string, seq<string>>,
    modifications: seq<Modification>,
    spec: ModSpec,
    lastLine: Option<string>,
    version: Option<nat>,
    collected: seq<Operation>)

  const NO_SPEC := ModSpec(Add, "", [])
  const INITIAL := State(HEADER, "", map[], [], NO_SPEC, None, None, [])

  datatype Progress<T> = Next(value: T) | Raise(error: ParseError)

  function SetOf(values: seq<string>): set<string> {
    set v | v in values
  }

  function IsDnKey(key: string): bool {
    |key| == 2 && (key[0] == 'd' || key[0] == 'D') && (key[1] == 'n' || key[1] == 'N')
  }

  function ModKind(key: string): Option<Kind> {
    if key == "add" then Some(Add) else if key == "delete" then Some(Delete)
    else if key == "replace" then Some(Replace) else None
  }

  /** int() on a version number: digits and nothing else. */
  function Number(s: string): Option<nat> {
    if s == [] then None else NumberFrom(0, s)
  }

  function NumberFrom(n: nat, s: string): Option<nat>
    decreases |s|
  {
    if s == [] then Some(n)
    else if '0' <= s[0] <= '9' then NumberFrom(n * 10 + (s[0] as int - '0' as int), s[1..])
    else None
  }

  function LineError(p: ParsedLine): ParseError
    requires !p.Pair?
  {
    match p
    case WithoutColon => LineWithoutSemicolon
    case UrlNotImplemented => NotImplemented
    case BadBase64 => BadBase64Value
  }

  /** A record is over: the operation goes out. */
  function Collect(st: State, op: Operation): State {
    st.(mode := WAIT_FOR_DN, dn := "", data := map[], modifications := [], collected := st.collected + [op])
  }

  // -------------------------------------------------- the states, as functions

  function WaitForDN(st: State, line: string): Progress<State> {
    if line == "" then Next(st)
    else
      var p := ParseLine(line);
      if !p.Pair? then Raise(LineError(p))
      else if !IsDnKey(p.key) then Raise(EntryStartsWithNonDN)
      else Next(st.(dn := p.val, data := map[], mode := WAIT_FOR_CHANGETYPE))
  }

  function Header(st: State, line: string): Progress<State> {
    var p := ParseLine(line);
    if !p.Pair? then Raise(LineError(p))
    else if p.key != "version" then WaitForDN(st.(mode := WAIT_FOR_DN), line)
    else
      var n := Number(p.val);
      if n.None? then Raise(VersionNotANumber)
      else if n.value > 1 then Raise(UnsupportedVersion)
      else Next(st.(mode := WAIT_FOR_DN, version := n))
  }

  function WaitForChangeType(st: State, line: string): Progress<State> {
    if line == "" then Raise(MissingChangeType)
    else
      var p := ParseLine(line);
      if !p.Pair? then Raise(LineError(p))
      else if p.key != "changetype" then Raise(MissingChangeType)
      else if p.val == "modify" then Next(st.(modifications := [], mode := WAIT_FOR_MOD_SPEC))
      else if p.val == "add" then Next(st.(mode := IN_ADD_ENTRY))
      else if p.val == "delete" then Next(st.(mode := IN_DELETE))
      else if p.val == "modrdn" || p.val == "moddn" then Raise(NotImplemented)
      else Raise(UnknownChangeType)
  }

  function WaitForModSpec(st: State, line: string): Progress<State> {
    if line == "" then
      var name := Parse(st.dn);
      if name.Good? then Next(Collect(st, ModifyOp(name.value, st.modifications))) else Raise(InvalidName)
    else
      var p := ParseLine(line);
      if !p.Pair? then Raise(LineError(p))
      else
        var kind := ModKind(p.key);
        if kind.None? then Raise(UnknownModification)
        else Next(st.(spec := ModSpec(kind.value, p.val, []), mode := IN_MOD_SPEC))
  }

  function InModSpec(st: State, line: string): Progress<State> {
    if line == "" then Raise(MissingEndDash)
    else if line == "-" then
      var m := Modification(st.spec.kind, st.spec.attribute, SetOf(st.spec.values));
      Next(st.(modifications := st.modifications + [m], spec := NO_SPEC, mode := WAIT_FOR_MOD_SPEC))
    else
      var p := ParseLine(line);
      if !p.Pair? then Raise(LineError(p))
      else if p.key != st.spec.attribute then Raise(DifferentAttributeType)
      else Next(st.(spec := st.spec.(values := st.spec.values + [p.val])))
  }

  function Sets(data: map<string, seq<string>>): Attrs {
    map k | k in data :: SetOf(data[k])
  }

  function InAddEntry(st: State, line: string): Progress<State> {
    if line == "" then
      var name := Parse(st.dn);
      if st.data == map[] then Raise(AddMissingAttributes)
      else if name.Invalid? then Raise(InvalidName)
      else Next(Collect(st, AddOp(name.value, Sets(st.data))))
    else
      var p := ParseLine(line);
      if !p.Pair? then Raise(LineError(p)) else Next(st.(data := Append(st.data, p.key, p.val)))
  }

  function InDelete(st: State, line: string): Progress<State> {
    if line != "" then Raise(DeleteHasJunk)
    else
      var name := Parse(st.dn);
      if name.Good? then Next(Collect(st, DeleteOp(name.value))) else Raise(InvalidName)
  }

  /** logicalLineReceived: a line after unfolding. */
  function Logical(st: State, line: string): Progress<State> {
    if line != [] && line[0] == '#' then Next(st)
    else
      match st.mode
      case HEADER => Header(st, line)
      case WAIT_FOR_DN => WaitForDN(st, line)
      case WAIT_FOR_CHANGETYPE => WaitForChangeType(st, line)
      case WAIT_FOR_MOD_SPEC => WaitForModSpec(st, line)
      case IN_MOD_SPEC => InModSpec(st, line)
      case IN_ADD_ENTRY => InAddEntry(st, line)
      case IN_DELETE => InDelete(st, line)
  }

  /** lineReceived: a line as it came, which may go on with the last one. */
  function Received(st: State, line: string): Progress<State> {
    if line != [] && line[0] == ' ' then
      if st.lastLine.None? then Raise(EntryStartsWithSpace)
      else Next(st.(lastLine := Some(st.lastLine.value + line[1..])))
    else
      var before := if st.lastLine.Some? then Logical(st, st.lastLine.value) else Next(st);
      if before.Raise? then before
      else if line != "" then Next(before.value.(lastLine := Some(line)))
      else
        var after := Logical(before.value.(lastLine := Some(line)), line);
        if after.Raise? then after else Next(after.value.(lastLine := None))
  }

  /** dataReceived's loop: the lines in the buffer, and what is left of it. */
  function Feed(st: State, buffer: string): Progress<(State, string)>
    decreases |buffer|
  {
    if '\n' !in buffer then Next((st, buffer))
    else
      var i := IndexOf(buffer, '\n');
      var after := Received(st, buffer[..i]);
      if after.Raise? then Raise(after.error) else Feed(after.value, buffer[i + 1..])
  }

  // -------------------------------------------------------------- the parser

  class Parser {
    var buffer: string
    var mode: Mode
    var dn: string
    var data: map<string, seq<string>>
    var modifications: seq<Modification>
    var modSpec: Kind
    var modSpecAttr: string
    var modSpecData: seq<string>
    var lastLine: Option<string>
    var version: Option<nat>
    var collected: seq<Operation>

    ghost function Now(): State
      reads this
    {
      State(mode, dn, data, modifications, ModSpec(modSpec, modSpecAttr, modSpecData), lastLine, version, collected)
    }

    /** What a method that may raise did: it did as the function says, or raised
        what the function says. */
    ghost predicate Did(said: Progress<State>, r: Option<ParseError>)
      reads this
    {
      match said
      case Next(after) => r == None && Now() == after
      case Raise(error) => r == Some(error)
    }

    constructor ()
      ensures buffer == "" && Now() == INITIAL
    {
      buffer, mode, dn, data, modifications := "", HEADER, "", map[], [];
      modSpec, modSpecAttr, modSpecData := Add, "", [];
      lastLine, version, collected := None, None, [];
    }

    method StateWaitForDN(line: string) returns (r: Option<ParseError>)
      modifies this
      ensures Did(WaitForDN(old(Now()), line), r) && buffer == old(buffer)
    {
      if line == "" {
        return None;
      }
      var p := ParseLine(line);
      if !p.Pair? {
        return Some(LineError(p));
      }
      if !IsDnKey(p.key) {
        return Some(EntryStartsWithNonDN);
      }
      dn, data, mode := p.val, map[], WAIT_FOR_CHANGETYPE;
      r := None;
    }

    method StateHeader(line: string) returns (r: Option<ParseError>)
      modifies this
      ensures Did(Header(old(Now()), line), r) && buffer == old(buffer)
    {
      var p := ParseLine(line);
      if !p.Pair? {
        return Some(LineError(p));
      }
      mode := WAIT_FOR_DN;
      if p.key != "version" {
        r := StateWaitForDN(line);
      } else {
        var n := Number(p.val);
        if n.None? {
          return Some(VersionNotANumber);
        }
        version := n;
        r := if n.value > 1 then Some(UnsupportedVersion) else None;
      }
    }

    method StateWaitForChangeType(line: string) returns (r: Option<ParseError>)
      modifies this
      ensures Did(WaitForChangeType(old(Now()), line), r) && buffer == old(buffer)
    {
      if line == "" {
        return Some(MissingChangeType);
      }
      var p := ParseLine(line);
      if !p.Pair? {
        return Some(LineError(p));
      }
      if p.key != "changetype" {
        return Some(MissingChangeType);
      }
      r := None;
      if p.val == "modify" {
        modifications, mode := [], WAIT_FOR_MOD_SPEC;
      } else if p.val == "add" {
        mode := IN_ADD_ENTRY;
      } else if p.val == "delete" {
        mode := IN_DELETE;
      } else if p.val == "modrdn" || p.val == "moddn" {
        r := Some(NotImplemented);
      } else {
        r := Some(UnknownChangeType);
      }
    }

    method GotEntry(op: Operation)
      modifies this
      ensures Now() == Collect(old(Now()), op) && buffer == old(buffer)
    {
      mode, dn, data, modifications := WAIT_FOR_DN, "", map[], [];
      collected := collected + [op];
    }

    method StateWaitForModSpec(line: string) returns (r: Option<ParseError>)
      modifies this
      ensures Did(WaitForModSpec(old(Now()), line), r) && buffer == old(buffer)
    {
      if line == "" {
        var name := Parse(dn);
        if name.Invalid? {
          return Some(InvalidName);
        }
        GotEntry(ModifyOp(name.value, modifications));
        return None;
      }
      var p := ParseLine(line);
      if !p.Pair? {
        return Some(LineError(p));
      }
      var kind := ModKind(p.key);
      if kind.None? {
        return Some(UnknownModification);
      }
      modSpec, modSpecAttr, modSpecData := kind.value, p.val, [];
      mode := IN_MOD_SPEC;
      r := None;
    }

    method StateInModSpec(line: string) returns (r: Option<ParseError>)
      modifies this
      ensures Did(InModSpec(old(Now()), line), r) && buffer == old(buffer)
    {
      if line == "" {
        return Some(MissingEndDash);
      }
      if line == "-" {
        modifications := modifications + [Modification(modSpec, modSpecAttr, SetOf(modSpecData))];
        modSpec, modSpecAttr, modSpecData := Add, "", [];
        mode := WAIT_FOR_MOD_SPEC;
        return None;
      }
      var p := ParseLine(line);
      if !p.Pair? {
        return Some(LineError(p));
      }
      if p.key != modSpecAttr {
        return Some(DifferentAttributeType);
      }
      modSpecData := modSpecData + [p.val];
      r := None;
    }

    method StateInAddEntry(line: string) returns (r: Option<ParseError>)
      modifies this
      ensures Did(InAddEntry(old(Now()), line), r) && buffer == old(buffer)
    {
      if line == "" {
        if data == map[] {
          return Some(AddMissingAttributes);
        }
        var name := Parse(dn);
        if name.Invalid? {
          return Some(InvalidName);
        }
        GotEntry(AddOp(name.value, Sets(data)));
        return None;
      }
      var p := ParseLine(line);
      if !p.Pair? {
        return Some(LineError(p));
      }
      data := data[p.key := (if p.key in data then data[p.key] else []) + [p.val]];
      r := None;
    }

    method StateInDelete(line: string) returns (r: Option<ParseError>)
      modifies this
      ensures Did(InDelete(old(Now()), line), r) && buffer == old(buffer)
    {
      if line != "" {
        return Some(DeleteHasJunk);
      }
      var name := Parse(dn);
      if name.Invalid? {
        return Some(InvalidName);
      }
      GotEntry(DeleteOp(name.value));
      r := None;
    }

    method LogicalLineReceived(line: string) returns (r: Option<ParseError>)
      modifies this
      ensures Did(Logical(old(Now()), line), r) && buffer == old(buffer)
    {
      if line != "" && line[0] == '#' {
        return None;
      }
      match mode
      case HEADER => r := StateHeader(line);
      case WAIT_FOR_DN => r := StateWaitForDN(line);
      case WAIT_FOR_CHANGETYPE => r := StateWaitForChangeType(line);
      case WAIT_FOR_MOD_SPEC => r := StateWaitForModSpec(line);
      case IN_MOD_SPEC => r := StateInModSpec(line);
      case IN_ADD_ENTRY => r := StateInAddEntry(line);
      case IN_DELETE => r := StateInDelete(line);
    }

    method LineReceived(line: string) returns (r: Option<ParseError>)
      modifies this
      ensures Did(Received(old(Now()), line), r) && buffer == old(buffer)
    {
      hide Logical;
      if line != "" && line[0] == ' ' {
        if lastLine.None? {
          return Some(EntryStartsWithSpace);
        }
        lastLine := Some(lastLine.value + line[1..]);
        return None;
      }
      if lastLine.Some? {
        r := LogicalLineReceived(lastLine.value);
        if r.Some? {
          return;
        }
      }
      lastLine := Some(line);
      r := None;
      if line == "" {
        r := LogicalLineReceived(line);
        if r.Some? {
          return;
        }
        lastLine := None;
      }
    }

    method DataReceived(received: string) returns (r: Option<ParseError>)
      modifies this
      ensures match Feed(old(Now()), old(buffer) + received)
              case Next((after, rest)) => r == None && Now() == after && buffer == rest
              case Raise(error) => r == Some(error)
    {
      hide Received;
      buffer := buffer + received;
      r := None;
      while '\n' in buffer
        invariant r == None
        invariant Feed(Now(), buffer) == Feed(old(Now()), old(buffer) + received)
        decreases |buffer|
      {
        var index := IndexOf(buffer, '\n');
        var line := buffer[..index];
        buffer := buffer[index + 1..];
        r := LineReceived(line);
        if r.Some? {
          return;
        }
      }
    }
  }
}
