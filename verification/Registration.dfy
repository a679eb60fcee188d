/** The client's registration file me.info (TcpClient/ConfigManager.cpp). */
module Registration {
  import opened Encodings
  import opened LineEditor
  import opened Wrappers

  const NAME_LINE_INDEX := 0
  const UUID_LINE_INDEX := 1
  const RSA_KEY_LINE_INDEX := 2
  const CLIENT_MAX_NAME := 100
  const CLIENT_ID_SIZE := 16

  datatype ClientInfo = ClientInfo(name: Text, uuid: Text, rsaPrivateKey: Text)

  /** A step of loading: whether it went well and what it leaves in the line and the client info. */
  datatype Check = Check(ok: bool, line: Text, client: ClientInfo)

  datatype Loaded = Loaded(registered: bool, client: ClientInfo)

  /** The name from the transfer settings; 100 characters are already too many here. */
  function ConfiguredName(nameLine: Text): Option<Text> {
    if nameLine == [] || |Trim(nameLine)| >= CLIENT_MAX_NAME then None else Some(Trim(nameLine))
  }

  function CheckClientName(line: Text, client: ClientInfo): Check {
    if line == [] then Check(false, line, client)
    else
      var name := Trim(line);
      if |name| > CLIENT_MAX_NAME then Check(false, name, client) else Check(true, name, client.(name := name))
  }

  function CheckClientsID(line: Text, client: ClientInfo): Check {
    if line == [] then Check(false, line, client)
    else
      var id := Unhex(Decode(Trim(line)));
      if |id| != CLIENT_ID_SIZE then Check(false, id, client) else Check(true, id, client.(uuid := id))
  }

  function GetRSAKey(line: Text, client: ClientInfo): Check {
    if line == [] then Check(false, line, client)
    else Check(true, Trim(line), client.(rsaPrivateKey := Decode(Trim(line))))
  }

  /** Loading an existing file: two lines, then all the rest. Each check works on the line
      variable in place, so a getline that fails hands on what the check before it left. */
  function Load(file: Text, client: ClientInfo): Loaded {
    var (afterName, nameLine) := GetLine(Open(file), []);
    var name := CheckClientName(nameLine, client);
    if !name.ok then Loaded(false, name.client)
    else
      var (afterId, idLine) := GetLine(afterName, name.line);
      var id := CheckClientsID(idLine, name.client);
      if !id.ok then Loaded(false, id.client)
      else
        var key := GetRSAKey(afterId.rest, id.client);
        Loaded(key.ok, key.client)
  }

  /** The file after it is created, given the id, and given the key. */
  function Created(name: Text): Text { Written(Edited([], name, NAME_LINE_INDEX)) }
  function WithUuid(file: Text, uuid: Text): Text { Written(Edited(file, Encode(uuid), UUID_LINE_INDEX)) }
  function WithKey(file: Text, key: Text): Text { Written(Edited(file, Encode(key), RSA_KEY_LINE_INDEX)) }

  class ConfigManager {
    var registration: Option<Text>
    var transferName: Text
    var client: ClientInfo

    constructor (registration: Option<Text>)
      ensures this.registration == registration
    {
      this.registration := registration;
      transferName := [];
      client := ClientInfo([], [], []);
    }

    method GetClientName(nameLine: Text) returns (ok: bool)
      modifies this
      ensures ok == (nameLine != [] && |Trim(nameLine)| < 100) == ConfiguredName(nameLine).Some?
      ensures transferName == if ok then Trim(nameLine) else old(transferName)
      ensures client == if ok then old(client).(name := Trim(nameLine)) else old(client)
      ensures registration == old(registration)
    {
      if nameLine == [] {
        return false;
      }
      var name := Trim(nameLine);
      if |name| >= CLIENT_MAX_NAME {
        return false;
      }
      transferName := name;
      client := client.(name := name);
      ok := true;
    }

    method CreateRegistrationFile()
      modifies this
      ensures registration == Some(Created(transferName))
      ensures transferName == old(transferName) && client == old(client)
    {
      registration := Some([]);
      var handler := new FileHandler(registration);
      var _ := handler.WriteAtLine(transferName, NAME_LINE_INDEX);
      registration := handler.contents;
    }

    /** In memory the id stays in hex, where loading leaves the 16 bytes. */
    method SetClientsUuid(uuid: Text)
      modifies this
      ensures registration == if old(registration).Some? then Some(WithUuid(old(registration).value, uuid)) else None
      ensures client == old(client).(uuid := uuid) && transferName == old(transferName)
    {
      client := client.(uuid := uuid);
      var handler := new FileHandler(registration);
      var _ := handler.WriteAtLine(Encode(uuid), UUID_LINE_INDEX);
      registration := handler.contents;
    }

    method SetClientsPrivateKey(key: Text)
      modifies this
      ensures registration == if old(registration).Some? then Some(WithKey(old(registration).value, key)) else None
      ensures client == old(client).(rsaPrivateKey := key) && transferName == old(transferName)
    {
      client := client.(rsaPrivateKey := key);
      var handler := new FileHandler(registration);
      var _ := handler.WriteAtLine(Encode(key), RSA_KEY_LINE_INDEX);
      registration := handler.contents;
    }

    method IsRegistered() returns (registered: bool)
      modifies this
      ensures old(registration).None? ==> !registered && registration == Some(Created(transferName))
      ensures old(registration).None? ==> client == old(client)
      ensures old(registration).Some? ==>
        registration == old(registration) && Loaded(registered, client) == Load(registration.value, old(client))
      ensures transferName == old(transferName)
    {
      hide GetLine, CheckClientName, CheckClientsID, GetRSAKey;
      if registration.None? {
        CreateRegistrationFile();
        return false;
      }
      var (afterName, nameLine) := GetLine(Open(registration.value), []);
      var name := CheckClientName(nameLine, client);
      client := name.client;
      if !name.ok {
        return false;
      }
      var (afterId, idLine) := GetLine(afterName, name.line);
      var id := CheckClientsID(idLine, client);
      client := id.client;
      if !id.ok {
        return false;
      }
      var key := GetRSAKey(afterId.rest, client);
      client := key.client;
      registered := key.ok;
    }
  }

  // ----- the file, step by step -----

  /** The id's line: 44 letters and padding, no white space. */
  lemma IdLine(id: Text)
    requires |id| == CLIENT_ID_SIZE
    ensures var line := Unbroken(Hex(id));
      && Encode(Hex(id)) == line + [NEWLINE] && |line| == 44 && NoSpace(line)
      && NEWLINE !in line && Trim(line) == line
  {
    hide Letters, IsSpace, Sextets, Hex;
    SextetCount(Hex(id));
    UnbrokenHasNoSpace(Hex(id));
    OtherCharacters();
    TrimOfSpaceless(Unbroken(Hex(id)));
  }

  lemma TrimOfSpaceless(t: Text)
    requires NoSpace(t)
    ensures Trim(t) == t
  {}

  lemma {:induction false} TrimSubset(t: Text)
    ensures NEWLINE !in t ==> NEWLINE !in Trim(t)
  {
    TrimLeftSubset(t);
    TrimRightEnds(TrimLeft(t));
  }

  lemma {:induction false} TrimLeftSubset(t: Text)
    ensures NEWLINE !in t ==> NEWLINE !in TrimLeft(t)
  {
    if t != [] && IsSpace(t[0]) {
      TrimLeftSubset(t[1..]);
    }
  }

  lemma {:induction false} WrittenAppend(a: seq<Text>, b: seq<Text>)
    ensures Written(a + b) == Written(a) + Written(b)
  {
    if a == [] {
      assert a + b == b;
    } else {
      WrittenAppend(a[1..], b);
      assert (a + b)[1..] == a[1..] + b;
      Associate(a[0] + [NEWLINE], Written(a[1..]), Written(b));
    }
  }

  lemma Associate(x: Text, y: Text, z: Text)
    ensures (x + y) + z == x + (y + z)
  {}

  lemma WrittenOne(line: Text)
    ensures Written([line]) == line + [NEWLINE]
  {
    assert [line][1..] == [];
    assert line + [NEWLINE] + [] == line + [NEWLINE];
  }

  /** A content that ends in a newline of its own leaves an empty line behind. */
  lemma TwoNewlines(before: seq<Text>, line: Text)
    ensures Written(before + [line + [NEWLINE]]) == Written(before + [line, []])
  {
    WrittenAppend(before, [line + [NEWLINE]]);
    WrittenAppend(before, [line, []]);
    WrittenOne(line + [NEWLINE]);
    assert [line, []] == [line] + [[]];
    WrittenAppend([line], [[]]);
    WrittenOne(line);
    WrittenOne([]);
  }

  lemma CreatedLines(name: Text)
    ensures Created(name) == Written([name])
  {
    assert Lines([]) == [];
    assert Edited([], name, 0) == [name];
  }

  lemma EditedWithUuid(file: Text, name: Text, content: Text)
    requires Terminated(file) && Lines(file) == [name]
    ensures Edited(file, content, 1) == IfAny(name) + [content]
  {
    NonEmptyOne(name);
  }

  lemma UuidAdded(name: Text, line: Text, uuid: Text)
    requires NEWLINE !in name && Encode(uuid) == line + [NEWLINE]
    ensures WithUuid(Created(name), uuid) == Written(IfAny(name) + [line, []])
  {
    hide Encode, Created, Written, Lines, Terminated, IfAny, Edited;
    CreatedLines(name);
    LinesOfWritten([name]);
    WrittenTerminates([name]);
    EditedWithUuid(Created(name), name, Encode(uuid));
    TwoNewlines(IfAny(name), line);
  }

  lemma EditedWithKey(file: Text, name: Text, line: Text, content: Text)
    requires Terminated(file) && Lines(file) == IfAny(name) + [line, []] && line != []
    ensures Edited(file, content, 2) == IfAny(name) + [line] + [content]
  {
    hide Lines, Terminated;
    var lines := Lines(file);
    assert NonEmpty([[]]) == [];
    assert [line, []] == [line] + [[]];
    NonEmptyAppend([line], [[]]);
    NonEmptyOne(line);
    NonEmptyOne(name);
    NonEmptyAppend([name], [line, []]);
    if name != [] {
      assert lines[..3] == lines && lines[3..] == [];
      assert lines == [name] + [line, []];
    } else {
      assert lines == [line, []];
    }
  }

  lemma KeyAdded(name: Text, line: Text, key: Text)
    requires NEWLINE !in name && NEWLINE !in line && line != []
    ensures WithKey(Written(IfAny(name) + [line, []]), key) == Written(IfAny(name) + [line] + [Encode(key)])
  {
    hide Encode, Written, Lines, Terminated, Edited;
    var lines := IfAny(name) + [line, []];
    LinesOfWritten(lines);
    WrittenTerminates(lines);
    EditedWithKey(Written(lines), name, line, Encode(key));
  }

  /** The whole file. */
  function Saved(name: Text, uuid: Text, key: Text): Text { WithKey(WithUuid(Created(name), uuid), key) }

  lemma SavedLines(name: Text, line: Text, uuid: Text, key: Text)
    requires NEWLINE !in name && NEWLINE !in line && line != [] && Encode(uuid) == line + [NEWLINE]
    ensures Saved(name, uuid, key) == Written(IfAny(name) + [line] + [Encode(key)])
  {
    UuidAdded(name, line, uuid);
    KeyAdded(name, line, key);
  }

  // ----- loading -----

  lemma GetLineOfWritten(line: Text, rest: seq<Text>, held: Text)
    requires NEWLINE !in line
    ensures GetLine(Open(Written([line] + rest)), held) == (Open(Written(rest)), line)
  {
    hide LineEnd;
    WrittenAppend([line], rest);
    WrittenOne(line);
    LineEndOf(line, Written(rest));
    var s := line + [NEWLINE] + Written(rest);
    assert s[..|line|] == line && s[|line| + 1..] == Written(rest);
  }

  lemma KeyLoads(key: Text, client: ClientInfo)
    ensures GetRSAKey(Written([Encode(key)]), client)
         == Check(true, Trim(Written([Encode(key)])), client.(rsaPrivateKey := key))
  {
    hide Decode, Encode, Trim, IsSpace;
    WrittenOne(Encode(key));
    OtherCharacters();
    DecodeEncode(key, [], [NEWLINE]);
    assert [] + Encode(key) + [NEWLINE] == Written([Encode(key)]);
  }

  lemma IdLoads(id: Text, client: ClientInfo)
    requires |id| == CLIENT_ID_SIZE
    ensures CheckClientsID(Unbroken(Hex(id)), client) == Check(true, id, client.(uuid := id))
  {
    hide Decode, Encode, Trim, Unbroken, Hex, UnhexAll, NoSpace;
    IdLine(id);
    DecodeEncode(Hex(id), [], []);
    assert [] + Unbroken(Hex(id)) + [] == Unbroken(Hex(id));
    UnhexHex(id);
  }

  /** Creating me.info with the configured name, adding the id in hex and the key, and loading
      brings back the name, the 16 bytes of the id and the key, for every id and key: exactly
      when the configured name is not blank. */
  lemma RegistrationRoundTrip(nameLine: Text, id: Text, key: Text, client: ClientInfo)
    requires NEWLINE !in nameLine && ConfiguredName(nameLine).Some? && |id| == CLIENT_ID_SIZE
    ensures var name := ConfiguredName(nameLine).value;
      Load(Saved(name, Hex(id), key), client) == Loaded(true, ClientInfo(name, id, key)) <==> name != []
  {
    hide Hex, Unbroken, Trim, Encode, GetLine, Written, Saved, GetRSAKey, CheckClientsID;
    var name, line := Trim(nameLine), Unbroken(Hex(id));
    TrimSubset(nameLine);
    TrimEnds(nameLine);
    IdLine(id);
    SavedLines(name, line, Hex(id), key);
    if name != [] {
      assert IfAny(name) + [line] + [Encode(key)] == [name] + ([line] + [Encode(key)]);
      GetLineOfWritten(name, [line] + [Encode(key)], []);
      GetLineOfWritten(line, [Encode(key)], name);
      IdLoads(id, client.(name := name));
      KeyLoads(key, client.(name := name, uuid := id));
    } else {
      assert IfAny(name) + [line] + [Encode(key)] == [line] + [Encode(key)];
      GetLineOfWritten(line, [Encode(key)], []);
      NameAfterLoad(line, [Encode(key)], client);
    }
  }

  /** Loading takes the first line for the name, whatever it is. */
  lemma NameAfterLoad(line: Text, rest: seq<Text>, client: ClientInfo)
    requires NEWLINE !in line && line != [] && Trim(line) == line && |line| <= CLIENT_MAX_NAME
    ensures Load(Written([line] + rest), client).client.name == line
  {
    hide GetLine, Written, Trim, Unhex, Decode;
    GetLineOfWritten(line, rest, []);
  }

  /** A file that holds the name alone, as after a registration that was cut short, does not load. */
  lemma NameAloneIsUnregistered(name: Text, client: ClientInfo)
    requires NEWLINE !in name
    ensures !Load(Created(name), client).registered
  {
    hide Trim;
    CreatedLines(name);
    GetLineOfWritten(name, [], []);
    assert [name] + [] == [name];
  }

  lemma ThreeLines(a: Text, b: Text, c: Text)
    ensures Written([a] + [b] + [c]) == a + [10] + b + [10] + c + [10]
  {
    hide Written;
    WrittenAppend([a] + [b], [c]);
    WrittenAppend([a], [b]);
    WrittenOne(a);
    WrittenOne(b);
    WrittenOne(c);
    Associate(a + [10], b, [10]);
    Associate(a + [10] + b + [10], c, [10]);
  }

  /** The whole file, byte by byte: the name, the id in hex and Base64, and the key in Base64 with its
      own line breaks, each with a newline. */
  lemma SavedBytes(name: Text, id: Text, key: Text)
    requires NEWLINE !in name && name != [] && |id| == 16
    ensures Saved(name, Hex(id), key) == name + [10] + Unbroken(Hex(id)) + [10] + Encode(key) + [10]
  {
    hide Hex, Unbroken, Encode, Written, Saved, Trim, NoSpace;
    var line := Unbroken(Hex(id));
    IdLine(id);
    SavedLines(name, line, Hex(id), key);
    ThreeLines(name, line, Encode(key));
  }

  /** A file loads when its trimmed first line has at most 100 characters, where the settings allow
      only 99. */
  lemma NameLimits(line: Text, id: Text, key: Text, client: ClientInfo)
    requires NEWLINE !in line && line != [] && |id| == 16
    ensures Load(line + [10] + Unbroken(Hex(id)) + [10] + Encode(key) + [10], client).registered <==> |Trim(line)| <= 100
    ensures ConfiguredName(line) == if |Trim(line)| < 100 then Some(Trim(line)) else None
    ensures ConfiguredName([]) == None
  {
    hide Hex, Unbroken, Trim, Encode, GetLine, Written, GetRSAKey, CheckClientsID, NoSpace;
    var idLine := Unbroken(Hex(id));
    IdLine(id);
    ThreeLines(line, idLine, Encode(key));
    assert [line] + [idLine] + [Encode(key)] == [line] + ([idLine] + [Encode(key)]);
    GetLineOfWritten(line, [idLine] + [Encode(key)], []);
    if |Trim(line)| <= 100 {
      var name := Trim(line);
      GetLineOfWritten(idLine, [Encode(key)], name);
      IdLoads(id, client.(name := name));
      KeyLoads(key, client.(name := name, uuid := id));
    }
  }

  /** Any file of two lines and a rest: what each check asks, and what the client info keeps of the
      checks before one that fails. */
  lemma LoadExactly(a: Text, b: Text, rest: Text, client: ClientInfo)
    requires NEWLINE !in a && NEWLINE !in b
    ensures var name, id := Trim(a), Unhex(Decode(Trim(b)));
      Load(a + [10] + b + [10] + rest, client) ==
        if a == [] || |name| > 100 then Loaded(false, client)
        else if b == [] || |id| != 16 then Loaded(false, client.(name := name))
        else if rest == [] then Loaded(false, client.(name := name, uuid := id))
        else Loaded(true, ClientInfo(name, id, Decode(Trim(rest))))
  {
    hide Trim, Unhex, Decode, GetLine;
    LineThen(a, b + [10] + rest, []);
    assert a + [10] + (b + [10] + rest) == a + [10] + b + [10] + rest;
    LineThen(b, rest, Trim(a));
  }

  lemma LineThen(line: Text, rest: Text, held: Text)
    requires NEWLINE !in line
    ensures GetLine(Open(line + [10] + rest), held) == (Open(rest), line)
  {
    hide LineEnd;
    LineEndOf(line, rest);
    var s := line + [NEWLINE] + rest;
    assert s[..|line|] == line && s[|line| + 1..] == rest;
  }
}
