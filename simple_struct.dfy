/** The order-preserving flat form of the model: nested `[key, value]` lists
    in place of dictionaries. The functions state the shape; the methods build
    it with loops and appends and are proved to build exactly that shape; a
    decoder reads it back and shows what the flat form keeps. */
module SimpleStruct {
  import opened Wrappers
  import opened Lists
  import opened Model
  import opened Collection

  /** A value of the flat form: a string, or a list of values. */
  datatype Node = Str(s: string) | Items(items: seq<Node>)

  /** A `[key, value]` pair. */
  function Pair(key: string, value: Node): Node {
    Items([Str(key), value])
  }

  // ---------------------------------------------------------------------
  // The shape of the flat form

  /** A description as `[summary, text]`. */
  function DescriptionStruct(d: Description): Node {
    Items([Str(d.summary), Str(d.text)])
  }

  /** The `name` and `descriptions` pairs every node starts with; copyrights
      are not part of the flat form. */
  function CommonStruct(c: CommonFields): seq<Node> {
    [Pair("name", Str(c.name)), Pair("descriptions", Items(Map(c.descriptions, DescriptionStruct)))]
  }

  function ArgStruct(a: Argument): Node {
    Items([Pair("name", Str(a.name)), Pair("type", Str(a.argType)), Pair("interface", Str(a.iface)), Pair("summary", Str(a.summary))])
  }

  function EntryStruct(e: Entry): Node {
    Items([Pair("name", Str(e.name)), Pair("value", Str(e.value)), Pair("summary", Str(e.summary))])
  }

  /** `arguments_simple_struct`: one node per argument, in order. */
  function ArgumentsStruct(m: Message): seq<Node> {
    Map(m.arguments, ArgStruct)
  }

  /** `entries_simple_struct`: one node per entry, in order. */
  function EntriesStruct(e: Enum): seq<Node> {
    Map(e.entries, EntryStruct)
  }

  function MessageStruct(m: Message): Node {
    Items(CommonStruct(m.common) + [Pair("args", Items(ArgumentsStruct(m)))])
  }

  function EnumStruct(e: Enum): Node {
    Items(CommonStruct(e.common) + [Pair("entries", Items(EntriesStruct(e)))])
  }

  function InterfaceStruct(it: Interface): Node {
    Items(CommonStruct(it.common) + [
      Pair("version", Str(it.version)),
      Pair("requests", Items(Map(it.requests, MessageStruct))),
      Pair("events", Items(Map(it.events, MessageStruct))),
      Pair("enums", Items(Map(it.enums, EnumStruct)))])
  }

  function ProtocolStruct(p: Protocol): Node {
    Items(CommonStruct(p.common) + [Pair("interfaces", Items(Map(p.interfaces, InterfaceStruct)))])
  }

  function FileStruct(f: ProtocolFile): Node {
    Items([Pair("basename", Str(f.basename)), Pair("dirname", Str(f.dirname)),
           Pair("protocols", Items(Map(f.protocols, ProtocolStruct)))])
  }

  /** `['protocol_file', ...]` for one file. */
  function FileEntry(f: ProtocolFile): Node {
    Pair("protocol_file", FileStruct(f))
  }

  /** The whole flat form: one `protocol_file` entry per file, in order. */
  function FilesStruct(files: seq<ProtocolFile>): seq<Node> {
    Map(files, FileEntry)
  }

  // ---------------------------------------------------------------------
  // Key order

  /** The keys of a list of `[key, value]` pairs, in order; `None` when some
      item is not such a pair. */
  function Keys(n: Node): Option<seq<string>> {
    if !n.Items? then None else KeysOf(n.items)
  }

  function KeysOf(xs: seq<Node>): Option<seq<string>> {
    if xs == [] then Some([])
    else
      var k :- PairKey(xs[0]);
      var rest :- KeysOf(xs[1..]);
      Some([k] + rest)
  }

  function PairKey(n: Node): Option<string> {
    if n.Items? && |n.items| == 2 && n.items[0].Str? then Some(n.items[0].s) else None
  }

  /** A file lists `basename`, `dirname`, `protocols`. */
  lemma FileKeys(f: ProtocolFile)
    ensures Keys(FileStruct(f)) == Some(["basename", "dirname", "protocols"])
  {
    KeysOfPairs(FileStruct(f).items, ["basename", "dirname", "protocols"]);
  }

  /** A protocol lists `name`, `descriptions`, `interfaces`. */
  lemma ProtocolKeys(p: Protocol)
    ensures Keys(ProtocolStruct(p)) == Some(["name", "descriptions", "interfaces"])
  {
    KeysOfPairs(ProtocolStruct(p).items, ["name", "descriptions", "interfaces"]);
  }

  /** An interface lists `name`, `descriptions`, `version`, `requests`, `events`, `enums`. */
  lemma InterfaceKeys(it: Interface)
    ensures Keys(InterfaceStruct(it)) == Some(["name", "descriptions", "version", "requests", "events", "enums"])
  {
    KeysOfPairs(InterfaceStruct(it).items, ["name", "descriptions", "version", "requests", "events", "enums"]);
  }

  /** A request or event lists `name`, `descriptions`, `args`. */
  lemma MessageKeys(m: Message)
    ensures Keys(MessageStruct(m)) == Some(["name", "descriptions", "args"])
  {
    KeysOfPairs(MessageStruct(m).items, ["name", "descriptions", "args"]);
  }

  /** An enum lists `name`, `descriptions`, `entries`. */
  lemma EnumKeys(en: Enum)
    ensures Keys(EnumStruct(en)) == Some(["name", "descriptions", "entries"])
  {
    KeysOfPairs(EnumStruct(en).items, ["name", "descriptions", "entries"]);
  }

  /** An argument lists `name`, `type`, `interface`, `summary`. */
  lemma ArgKeys(a: Argument)
    ensures Keys(ArgStruct(a)) == Some(["name", "type", "interface", "summary"])
  {
    KeysOfPairs(ArgStruct(a).items, ["name", "type", "interface", "summary"]);
  }

  /** An entry lists `name`, `value`, `summary`. */
  lemma EntryKeys(e: Entry)
    ensures Keys(EntryStruct(e)) == Some(["name", "value", "summary"])
  {
    KeysOfPairs(EntryStruct(e).items, ["name", "value", "summary"]);
  }

  /** A list whose `i`-th item is a pair keyed `ks[i]` has exactly the keys `ks`. */
  lemma KeysOfPairs(xs: seq<Node>, ks: seq<string>)
    requires |xs| == |ks|
    requires forall i :: 0 <= i < |xs| ==> xs[i].Items? && |xs[i].items| == 2 && xs[i].items[0] == Str(ks[i])
    ensures KeysOf(xs) == Some(ks)
  {
    KeysFromPairs(xs);
    assert KeysOf(xs).value == ks;
  }

  /** The keys of a list of pairs are their first components. */
  lemma {:induction false} KeysFromPairs(xs: seq<Node>)
    requires forall i :: 0 <= i < |xs| ==> PairKey(xs[i]).Some?
    ensures KeysOf(xs).Some?
    ensures |KeysOf(xs).value| == |xs|
    ensures forall i :: 0 <= i < |xs| ==> KeysOf(xs).value[i] == PairKey(xs[i]).value
  {
    if xs != [] {
      KeysFromPairs(xs[1..]);
    }
  }

  // ---------------------------------------------------------------------
  // Reading the flat form back

  /** The value of a `[key, value]` pair, when `n` is one with that key. */
  function Field(n: Node, key: string): Option<Node> {
    if n.Items? && |n.items| == 2 && n.items[0] == Str(key) then Some(n.items[1]) else None
  }

  function FieldStr(n: Node, key: string): Option<string> {
    var v :- Field(n, key);
    if v.Str? then Some(v.s) else None
  }

  function FieldItems(n: Node, key: string): Option<seq<Node>> {
    var v :- Field(n, key);
    if v.Items? then Some(v.items) else None
  }

  /** Decodes every node of `xs` with `dec`; `None` if any one fails. */
  function ListOf<T>(xs: seq<Node>, dec: Node -> Option<T>): Option<seq<T>> {
    if xs == [] then Some([])
    else
      var x :- dec(xs[0]);
      var rest :- ListOf(xs[1..], dec);
      Some([x] + rest)
  }

  /** Decoding a mapped list, where the decoder inverts the encoder on each
      element, gives back the elements. */
  lemma {:induction false} ListOfMap<T>(ys: seq<T>, enc: T -> Node, dec: Node -> Option<T>, out: seq<T>)
    requires |out| == |ys|
    requires forall i :: 0 <= i < |ys| ==> dec(enc(ys[i])) == Some(out[i])
    ensures ListOf(Map(ys, enc), dec) == Some(out)
  {
    if ys != [] {
      ListOfMap(ys[1..], enc, dec, out[1..]);
      assert Map(ys, enc)[1..] == Map(ys[1..], enc);
      assert out == [out[0]] + out[1..];
    }
  }

  function DescriptionFromStruct(n: Node): Option<Description> {
    if n.Items? && |n.items| == 2 && n.items[0].Str? && n.items[1].Str? then
      Some(Description(n.items[1].s, n.items[0].s))
    else None
  }

  /** Reads the leading `name` and `descriptions` pairs. */
  function CommonFromStruct(xs: seq<Node>): Option<CommonFields> {
    if |xs| < 2 then None
    else
      var name :- FieldStr(xs[0], "name");
      var ds :- FieldItems(xs[1], "descriptions");
      var descriptions :- ListOf(ds, DescriptionFromStruct);
      Some(CommonFields(name, descriptions, []))
  }

  function ArgFromStruct(n: Node): Option<Argument> {
    if !n.Items? || |n.items| != 4 then None
    else
      var name :- FieldStr(n.items[0], "name");
      var argType :- FieldStr(n.items[1], "type");
      var iface :- FieldStr(n.items[2], "interface");
      var summary :- FieldStr(n.items[3], "summary");
      Some(Argument(name, argType, iface, summary))
  }

  function EntryFromStruct(n: Node): Option<Entry> {
    if !n.Items? || |n.items| != 3 then None
    else
      var name :- FieldStr(n.items[0], "name");
      var value :- FieldStr(n.items[1], "value");
      var summary :- FieldStr(n.items[2], "summary");
      Some(Entry(name, value, summary))
  }

  function MessageFromStruct(n: Node): Option<Message> {
    if !n.Items? || |n.items| != 3 then None
    else
      var common :- CommonFromStruct(n.items);
      var args :- FieldItems(n.items[2], "args");
      var arguments :- ListOf(args, ArgFromStruct);
      Some(Message(common, arguments))
  }

  function EnumFromStruct(n: Node): Option<Enum> {
    if !n.Items? || |n.items| != 3 then None
    else
      var common :- CommonFromStruct(n.items);
      var es :- FieldItems(n.items[2], "entries");
      var entries :- ListOf(es, EntryFromStruct);
      Some(Enum(common, entries))
  }

  function InterfaceFromStruct(n: Node): Option<Interface> {
    if !n.Items? || |n.items| != 6 then None
    else
      var common :- CommonFromStruct(n.items);
      var version :- FieldStr(n.items[2], "version");
      var rs :- FieldItems(n.items[3], "requests");
      var requests :- ListOf(rs, MessageFromStruct);
      var es :- FieldItems(n.items[4], "events");
      var events :- ListOf(es, MessageFromStruct);
      var ns :- FieldItems(n.items[5], "enums");
      var enums :- ListOf(ns, EnumFromStruct);
      Some(Interface(common, version, requests, events, enums))
  }

  function ProtocolFromStruct(n: Node): Option<Protocol> {
    if !n.Items? || |n.items| != 3 then None
    else
      var common :- CommonFromStruct(n.items);
      var ifs :- FieldItems(n.items[2], "interfaces");
      var interfaces :- ListOf(ifs, InterfaceFromStruct);
      Some(Protocol(common, interfaces))
  }

  function FileFromStruct(n: Node): Option<ProtocolFile> {
    if !n.Items? || |n.items| != 3 then None
    else
      var basename :- FieldStr(n.items[0], "basename");
      var dirname :- FieldStr(n.items[1], "dirname");
      var ps :- FieldItems(n.items[2], "protocols");
      var protocols :- ListOf(ps, ProtocolFromStruct);
      Some(ProtocolFile(basename, dirname, protocols))
  }

  function FileFromEntry(n: Node): Option<ProtocolFile> {
    var v :- Field(n, "protocol_file");
    FileFromStruct(v)
  }

  /** Reads a whole flat form back into protocol files. */
  function FilesFromStruct(xs: seq<Node>): Option<seq<ProtocolFile>> {
    ListOf(xs, FileFromEntry)
  }

  // ---------------------------------------------------------------------
  // What the flat form keeps: everything but the copyrights

  function NoCopyrights(c: CommonFields): CommonFields {
    c.(copyrights := [])
  }

  function PlainMessage(m: Message): Message {
    m.(common := NoCopyrights(m.common))
  }

  function PlainEnum(e: Enum): Enum {
    e.(common := NoCopyrights(e.common))
  }

  function PlainInterface(it: Interface): Interface {
    Interface(NoCopyrights(it.common), it.version,
      Map(it.requests, PlainMessage), Map(it.events, PlainMessage), Map(it.enums, PlainEnum))
  }

  function PlainProtocol(p: Protocol): Protocol {
    Protocol(NoCopyrights(p.common), Map(p.interfaces, PlainInterface))
  }

  /** A file with every copyright list emptied. */
  function PlainFile(f: ProtocolFile): ProtocolFile {
    f.(protocols := Map(f.protocols, PlainProtocol))
  }

  lemma CommonRoundTrip(c: CommonFields, rest: seq<Node>)
    ensures CommonFromStruct(CommonStruct(c) + rest) == Some(NoCopyrights(c))
  {
    var xs := CommonStruct(c) + rest;
    assert xs[0] == Pair("name", Str(c.name));
    assert xs[1] == Pair("descriptions", Items(Map(c.descriptions, DescriptionStruct)));
    ListOfMap(c.descriptions, DescriptionStruct, DescriptionFromStruct, c.descriptions);
  }

  lemma MessageRoundTrip(m: Message)
    ensures MessageFromStruct(MessageStruct(m)) == Some(PlainMessage(m))
  {
    CommonRoundTrip(m.common, [Pair("args", Items(ArgumentsStruct(m)))]);
    ListOfMap(m.arguments, ArgStruct, ArgFromStruct, m.arguments);
  }

  lemma EnumRoundTrip(e: Enum)
    ensures EnumFromStruct(EnumStruct(e)) == Some(PlainEnum(e))
  {
    CommonRoundTrip(e.common, [Pair("entries", Items(EntriesStruct(e)))]);
    ListOfMap(e.entries, EntryStruct, EntryFromStruct, e.entries);
  }

  lemma MessagesRoundTrip(ms: seq<Message>)
    ensures ListOf(Map(ms, MessageStruct), MessageFromStruct) == Some(Map(ms, PlainMessage))
  {
    forall i | 0 <= i < |ms|
      ensures MessageFromStruct(MessageStruct(ms[i])) == Some(Map(ms, PlainMessage)[i])
    {
      MessageRoundTrip(ms[i]);
    }
    ListOfMap(ms, MessageStruct, MessageFromStruct, Map(ms, PlainMessage));
  }

  lemma EnumsRoundTrip(es: seq<Enum>)
    ensures ListOf(Map(es, EnumStruct), EnumFromStruct) == Some(Map(es, PlainEnum))
  {
    forall i | 0 <= i < |es|
      ensures EnumFromStruct(EnumStruct(es[i])) == Some(Map(es, PlainEnum)[i])
    {
      EnumRoundTrip(es[i]);
    }
    ListOfMap(es, EnumStruct, EnumFromStruct, Map(es, PlainEnum));
  }

  lemma InterfaceRoundTrip(it: Interface)
    ensures InterfaceFromStruct(InterfaceStruct(it)) == Some(PlainInterface(it))
  {
    var n := InterfaceStruct(it);
    var rs, es, ns := Map(it.requests, MessageStruct), Map(it.events, MessageStruct), Map(it.enums, EnumStruct);
    CommonRoundTrip(it.common, n.items[2..]);
    assert CommonStruct(it.common) + n.items[2..] == n.items;
    assert n.items[2] == Pair("version", Str(it.version));
    assert n.items[3] == Pair("requests", Items(rs));
    assert n.items[4] == Pair("events", Items(es));
    assert n.items[5] == Pair("enums", Items(ns));
    assert FieldStr(n.items[2], "version") == Some(it.version);
    assert FieldItems(n.items[3], "requests") == Some(rs);
    assert FieldItems(n.items[4], "events") == Some(es);
    assert FieldItems(n.items[5], "enums") == Some(ns);
    MessagesRoundTrip(it.requests);
    MessagesRoundTrip(it.events);
    EnumsRoundTrip(it.enums);
  }

  lemma InterfacesRoundTrip(its: seq<Interface>)
    ensures ListOf(Map(its, InterfaceStruct), InterfaceFromStruct) == Some(Map(its, PlainInterface))
  {
    forall i | 0 <= i < |its|
      ensures InterfaceFromStruct(InterfaceStruct(its[i])) == Some(Map(its, PlainInterface)[i])
    {
      InterfaceRoundTrip(its[i]);
    }
    ListOfMap(its, InterfaceStruct, InterfaceFromStruct, Map(its, PlainInterface));
  }

  lemma ProtocolRoundTrip(p: Protocol)
    ensures ProtocolFromStruct(ProtocolStruct(p)) == Some(PlainProtocol(p))
  {
    var n := ProtocolStruct(p);
    var ifs := Map(p.interfaces, InterfaceStruct);
    CommonRoundTrip(p.common, n.items[2..]);
    assert CommonStruct(p.common) + n.items[2..] == n.items;
    assert n.items[2] == Pair("interfaces", Items(ifs));
    assert FieldItems(n.items[2], "interfaces") == Some(ifs);
    InterfacesRoundTrip(p.interfaces);
  }

  lemma ProtocolsRoundTrip(ps: seq<Protocol>)
    ensures ListOf(Map(ps, ProtocolStruct), ProtocolFromStruct) == Some(Map(ps, PlainProtocol))
  {
    forall i | 0 <= i < |ps|
      ensures ProtocolFromStruct(ProtocolStruct(ps[i])) == Some(Map(ps, PlainProtocol)[i])
    {
      ProtocolRoundTrip(ps[i]);
    }
    ListOfMap(ps, ProtocolStruct, ProtocolFromStruct, Map(ps, PlainProtocol));
  }

  lemma FileRoundTrip(f: ProtocolFile)
    ensures FileFromEntry(FileEntry(f)) == Some(PlainFile(f))
  {
    var n := FileStruct(f);
    var ps := Map(f.protocols, ProtocolStruct);
    assert Field(FileEntry(f), "protocol_file") == Some(n);
    assert FieldStr(n.items[0], "basename") == Some(f.basename);
    assert FieldStr(n.items[1], "dirname") == Some(f.dirname);
    assert FieldItems(n.items[2], "protocols") == Some(ps);
    ProtocolsRoundTrip(f.protocols);
  }

  /** The flat form loses only the copyrights: reading it back gives every
      file, protocol, interface, message, enum, argument and entry, in order,
      with every field but the copyrights intact. */
  lemma FilesRoundTrip(files: seq<ProtocolFile>)
    ensures FilesFromStruct(FilesStruct(files)) == Some(Map(files, PlainFile))
  {
    forall i | 0 <= i < |files|
      ensures FileFromEntry(FileEntry(files[i])) == Some(Map(files, PlainFile)[i])
    {
      FileRoundTrip(files[i]);
    }
    ListOfMap(files, FileEntry, FileFromEntry, Map(files, PlainFile));
  }

  // ---------------------------------------------------------------------
  // The flattener as the source runs it

  /** `arguments_simple_struct`. */
  method ArgumentsSimpleStruct(m: Message) returns (ret: seq<Node>)
    ensures ret == ArgumentsStruct(m)
  {
    ret := [];
    var i := 0;
    while i < |m.arguments|
      invariant 0 <= i <= |m.arguments|
      invariant ret == Map(m.arguments[..i], ArgStruct)
    {
      var arg := m.arguments[i];
      var argValue: seq<Node> := [];
      argValue := argValue + [Pair("name", Str(arg.name))];
      argValue := argValue + [Pair("type", Str(arg.argType))];
      argValue := argValue + [Pair("interface", Str(arg.iface))];
      argValue := argValue + [Pair("summary", Str(arg.summary))];
      assert Items(argValue) == ArgStruct(arg);
      MapSnoc(m.arguments[..i], arg, ArgStruct);
      assert m.arguments[..i + 1] == m.arguments[..i] + [arg];
      ret := ret + [Items(argValue)];
      i := i + 1;
    }
    assert m.arguments[..i] == m.arguments;
  }

  /** `entries_simple_struct`. */
  method EntriesSimpleStruct(e: Enum) returns (ret: seq<Node>)
    ensures ret == EntriesStruct(e)
  {
    ret := [];
    var i := 0;
    while i < |e.entries|
      invariant 0 <= i <= |e.entries|
      invariant ret == Map(e.entries[..i], EntryStruct)
    {
      var entry := e.entries[i];
      var entryValue: seq<Node> := [];
      entryValue := entryValue + [Pair("name", Str(entry.name))];
      entryValue := entryValue + [Pair("value", Str(entry.value))];
      entryValue := entryValue + [Pair("summary", Str(entry.summary))];
      assert Items(entryValue) == EntryStruct(entry);
      MapSnoc(e.entries[..i], entry, EntryStruct);
      assert e.entries[..i + 1] == e.entries[..i] + [entry];
      ret := ret + [Items(entryValue)];
      i := i + 1;
    }
    assert e.entries[..i] == e.entries;
  }

  /** `common_fields_from_obj_to_simple_struct`: appends the `name` and
      `descriptions` pairs to `lst`. */
  method CommonFieldsFromObjToSimpleStruct(lst: seq<Node>, c: CommonFields) returns (r: seq<Node>)
    ensures r == lst + CommonStruct(c)
  {
    r := lst + [Pair("name", Str(c.name))];
    var descriptions: seq<Node> := [];
    var i := 0;
    while i < |c.descriptions|
      invariant 0 <= i <= |c.descriptions|
      invariant descriptions == Map(c.descriptions[..i], DescriptionStruct)
    {
      var d := c.descriptions[i];
      MapSnoc(c.descriptions[..i], d, DescriptionStruct);
      assert c.descriptions[..i + 1] == c.descriptions[..i] + [d];
      descriptions := descriptions + [Items([Str(d.summary), Str(d.text)])];
      i := i + 1;
    }
    assert c.descriptions[..i] == c.descriptions;
    r := r + [Pair("descriptions", Items(descriptions))];
  }

  /** The request or event loop body: common fields, then `args`. */
  method MessageSimpleStruct(m: Message) returns (n: Node)
    ensures n == MessageStruct(m)
  {
    var lst := CommonFieldsFromObjToSimpleStruct([], m.common);
    var args := ArgumentsSimpleStruct(m);
    n := Items(lst + [Pair("args", Items(args))]);
  }

  /** The loop over an interface's requests or its events. */
  method MessagesSimpleStruct(ms: seq<Message>) returns (ret: seq<Node>)
    ensures ret == Map(ms, MessageStruct)
  {
    ret := [];
    var i := 0;
    while i < |ms|
      invariant 0 <= i <= |ms|
      invariant ret == Map(ms[..i], MessageStruct)
    {
      var n := MessageSimpleStruct(ms[i]);
      MapSnoc(ms[..i], ms[i], MessageStruct);
      assert ms[..i + 1] == ms[..i] + [ms[i]];
      ret := ret + [n];
      i := i + 1;
    }
    assert ms[..i] == ms;
  }

  /** The enum loop body: common fields, then `entries`. */
  method EnumSimpleStruct(e: Enum) returns (n: Node)
    ensures n == EnumStruct(e)
  {
    var lst := CommonFieldsFromObjToSimpleStruct([], e.common);
    var entries := EntriesSimpleStruct(e);
    n := Items(lst + [Pair("entries", Items(entries))]);
  }

  /** The interface loop body: common fields, `version`, then the requests,
      events and enums lists. */
  method InterfaceSimpleStruct(it: Interface) returns (n: Node)
    ensures n == InterfaceStruct(it)
  {
    var lst := CommonFieldsFromObjToSimpleStruct([], it.common);
    lst := lst + [Pair("version", Str(it.version))];
    var reqs := MessagesSimpleStruct(it.requests);
    lst := lst + [Pair("requests", Items(reqs))];
    var eves := MessagesSimpleStruct(it.events);
    lst := lst + [Pair("events", Items(eves))];
    var enus: seq<Node> := [];
    var i := 0;
    while i < |it.enums|
      invariant 0 <= i <= |it.enums|
      invariant enus == Map(it.enums[..i], EnumStruct)
    {
      var en := EnumSimpleStruct(it.enums[i]);
      MapSnoc(it.enums[..i], it.enums[i], EnumStruct);
      assert it.enums[..i + 1] == it.enums[..i] + [it.enums[i]];
      enus := enus + [en];
      i := i + 1;
    }
    assert it.enums[..i] == it.enums;
    lst := lst + [Pair("enums", Items(enus))];
    n := Items(lst);
  }

  /** The protocol loop body: common fields, then `interfaces`. */
  method ProtocolSimpleStruct(p: Protocol) returns (n: Node)
    ensures n == ProtocolStruct(p)
  {
    var lst := CommonFieldsFromObjToSimpleStruct([], p.common);
    var interfs: seq<Node> := [];
    var i := 0;
    while i < |p.interfaces|
      invariant 0 <= i <= |p.interfaces|
      invariant interfs == Map(p.interfaces[..i], InterfaceStruct)
    {
      var it := InterfaceSimpleStruct(p.interfaces[i]);
      MapSnoc(p.interfaces[..i], p.interfaces[i], InterfaceStruct);
      assert p.interfaces[..i + 1] == p.interfaces[..i] + [p.interfaces[i]];
      interfs := interfs + [it];
      i := i + 1;
    }
    assert p.interfaces[..i] == p.interfaces;
    n := Items(lst + [Pair("interfaces", Items(interfs))]);
  }

  /** The file loop body: `basename`, `dirname`, then `protocols`. */
  method FileSimpleStruct(f: ProtocolFile) returns (n: Node)
    ensures n == FileStruct(f)
  {
    var protos: seq<Node> := [];
    var i := 0;
    while i < |f.protocols|
      invariant 0 <= i <= |f.protocols|
      invariant protos == Map(f.protocols[..i], ProtocolStruct)
    {
      var p := ProtocolSimpleStruct(f.protocols[i]);
      MapSnoc(f.protocols[..i], f.protocols[i], ProtocolStruct);
      assert f.protocols[..i + 1] == f.protocols[..i] + [f.protocols[i]];
      protos := protos + [p];
      i := i + 1;
    }
    assert f.protocols[..i] == f.protocols;
    n := Items([Pair("basename", Str(f.basename)), Pair("dirname", Str(f.dirname)), Pair("protocols", Items(protos))]);
  }

  /** `generate_simple_struct`: one `protocol_file` entry per file of the
      collection, in the collection's order. */
  method GenerateSimpleStruct(coll: ProtocolCollection) returns (protoOd: seq<Node>)
    ensures protoOd == FilesStruct(coll.protocolFiles)
  {
    var files := coll.protocolFiles;
    protoOd := [];
    var i := 0;
    while i < |files|
      invariant 0 <= i <= |files|
      invariant protoOd == Map(files[..i], FileEntry)
    {
      var n := FileSimpleStruct(files[i]);
      MapSnoc(files[..i], files[i], FileEntry);
      assert files[..i + 1] == files[..i] + [files[i]];
      protoOd := protoOd + [Pair("protocol_file", n)];
      i := i + 1;
    }
    assert files[..i] == files;
  }
}
