/** The builder: from a parsed markup tree to the entity model, one document
    at a time. The functions state what each element becomes; the methods
    walk the children with loops and append, as the source does, and are
    proved to produce exactly what the functions state. */
module Builder {
  import opened Wrappers
  import opened Lists
  import opened Text
  import opened Elements
  import opened Model

  /** One parsed document: where it came from and its root element. */
  datatype ParsedInfo = ParsedInfo(basename: string, dirname: string, parsed: Element)

  /** An element's text, the empty string when there is none. */
  function TextOrEmpty(t: Option<string>): string {
    if t.Some? then t.value else ""
  }

  // ---------------------------------------------------------------------
  // What each element becomes

  /** A `description` child: its text and its `summary` attribute, both with
      surrounding whitespace removed; a missing text or summary gives `""`. */
  function DescriptionOf(d: Element): Description {
    Description(Strip(TextOrEmpty(d.text)), Strip(Get(d, "summary", "")))
  }

  /** A `copyright` child: its text exactly as written (it is not stripped). */
  function CopyrightOf(c: Element): string {
    TextOrEmpty(c.text)
  }

  /** The name, descriptions and copyrights every entity takes from its element. */
  function CommonOf(e: Element): CommonFields {
    CommonFields(
      Get(e, "name", ""),
      Map(Children(e, "description"), DescriptionOf),
      Map(Children(e, "copyright"), CopyrightOf))
  }

  /** An `arg` child; each absent attribute takes its placeholder. */
  function ArgumentOf(a: Element): Argument {
    Argument(
      Get(a, "name", "(no name)"),
      Get(a, "type", "(no type)"),
      Get(a, "interface", "(no interface)"),
      Get(a, "summary", "(no summary)"))
  }

  /** An `entry` child; each absent attribute takes its placeholder. */
  function EntryOf(x: Element): Entry {
    Entry(
      Get(x, "name", "(no name)"),
      Get(x, "value", "(no value)"),
      Get(x, "summary", "(no summary)"))
  }

  /** A `request` or `event`: common fields and its `arg` children. */
  function MessageOf(e: Element): Message {
    Message(CommonOf(e), Map(Children(e, "arg"), ArgumentOf))
  }

  function EnumOf(e: Element): Enum {
    Enum(CommonOf(e), Map(Children(e, "entry"), EntryOf))
  }

  /** An `interface`: common fields, its version (`"0"` when absent) and its
      requests, events and enums, each list in document order. */
  function InterfaceOf(e: Element): Interface {
    Interface(
      CommonOf(e),
      Get(e, "version", "0"),
      Map(Children(e, "request"), MessageOf),
      Map(Children(e, "event"), MessageOf),
      Map(Children(e, "enum"), EnumOf))
  }

  function ProtocolOf(e: Element): Protocol {
    Protocol(CommonOf(e), Map(Children(e, "interface"), InterfaceOf))
  }

  /** The file a document yields: `None` when its root is not a `protocol`
      element, otherwise one protocol built from the root. */
  function ProtocolFileOf(info: ParsedInfo): Option<ProtocolFile> {
    var roots := ProtocolRoots(info.parsed);
    if |roots| == 0 then None
    else Some(ProtocolFile(info.basename, info.dirname, Map(roots, ProtocolOf)))
  }

  /** The files of a sequence of documents: one per document that yields one,
      in document order. */
  function CollectFiles(docs: seq<ParsedInfo>): (r: seq<ProtocolFile>)
    ensures |r| <= |docs|
  {
    Present(docs, ProtocolFileOf)
  }

  // ---------------------------------------------------------------------
  // Properties of the model

  /** Absent attributes take their fixed placeholders, present ones are kept as
      written, and the common name defaults to `""`. */
  lemma Defaults(e: Element)
    ensures CommonOf(e).name == (if "name" in e.attrs then e.attrs["name"] else "")
    ensures ArgumentOf(e) == Argument(
      if "name" in e.attrs then e.attrs["name"] else "(no name)",
      if "type" in e.attrs then e.attrs["type"] else "(no type)",
      if "interface" in e.attrs then e.attrs["interface"] else "(no interface)",
      if "summary" in e.attrs then e.attrs["summary"] else "(no summary)")
    ensures EntryOf(e) == Entry(
      if "name" in e.attrs then e.attrs["name"] else "(no name)",
      if "value" in e.attrs then e.attrs["value"] else "(no value)",
      if "summary" in e.attrs then e.attrs["summary"] else "(no summary)")
    ensures InterfaceOf(e).version == (if "version" in e.attrs then e.attrs["version"] else "0")
  {
  }

  /** A description's text and summary never begin or end with whitespace,
      and a missing text or summary becomes `""`. */
  lemma DescriptionStripped(d: Element)
    ensures IsStripped(DescriptionOf(d).text) && IsStripped(DescriptionOf(d).summary)
    ensures d.text.None? ==> DescriptionOf(d).text == ""
    ensures "summary" !in d.attrs ==> DescriptionOf(d).summary == ""
  {
    StripSpec(TextOrEmpty(d.text));
    StripSpec(Get(d, "summary", ""));
  }

  /** Descriptions are trimmed, copyrights are kept verbatim, one of each per
      child element of that tag, in document order. */
  lemma CommonFieldsFromChildren(e: Element)
    ensures |CommonOf(e).descriptions| == |Children(e, "description")|
    ensures forall i :: 0 <= i < |Children(e, "description")| ==>
      CommonOf(e).descriptions[i].text == Strip(TextOrEmpty(Children(e, "description")[i].text))
    ensures |CommonOf(e).copyrights| == |Children(e, "copyright")|
    ensures forall i :: 0 <= i < |Children(e, "copyright")| ==>
      CommonOf(e).copyrights[i] == TextOrEmpty(Children(e, "copyright")[i].text)
  {
  }

  /** Children keep document order: building from two runs of children builds
      from each run and concatenates, for every list the builder fills. */
  lemma {:induction false} ChildrenInOrder(e: Element, a: seq<Element>, b: seq<Element>)
    requires e.children == a + b
    ensures MessageOf(e).arguments == MessageOf(e.(children := a)).arguments + MessageOf(e.(children := b)).arguments
    ensures EnumOf(e).entries == EnumOf(e.(children := a)).entries + EnumOf(e.(children := b)).entries
    ensures InterfaceOf(e).requests == InterfaceOf(e.(children := a)).requests + InterfaceOf(e.(children := b)).requests
    ensures InterfaceOf(e).events == InterfaceOf(e.(children := a)).events + InterfaceOf(e.(children := b)).events
    ensures InterfaceOf(e).enums == InterfaceOf(e.(children := a)).enums + InterfaceOf(e.(children := b)).enums
    ensures ProtocolOf(e).interfaces == ProtocolOf(e.(children := a)).interfaces + ProtocolOf(e.(children := b)).interfaces
    ensures CommonOf(e).descriptions == CommonOf(e.(children := a)).descriptions + CommonOf(e.(children := b)).descriptions
    ensures CommonOf(e).copyrights == CommonOf(e.(children := a)).copyrights + CommonOf(e.(children := b)).copyrights
  {
    WithTagAppend(a, b, "arg");
    MapAppend(WithTag(a, "arg"), WithTag(b, "arg"), ArgumentOf);
    WithTagAppend(a, b, "entry");
    MapAppend(WithTag(a, "entry"), WithTag(b, "entry"), EntryOf);
    WithTagAppend(a, b, "request");
    MapAppend(WithTag(a, "request"), WithTag(b, "request"), MessageOf);
    WithTagAppend(a, b, "event");
    MapAppend(WithTag(a, "event"), WithTag(b, "event"), MessageOf);
    WithTagAppend(a, b, "enum");
    MapAppend(WithTag(a, "enum"), WithTag(b, "enum"), EnumOf);
    WithTagAppend(a, b, "interface");
    MapAppend(WithTag(a, "interface"), WithTag(b, "interface"), InterfaceOf);
    WithTagAppend(a, b, "description");
    MapAppend(WithTag(a, "description"), WithTag(b, "description"), DescriptionOf);
    WithTagAppend(a, b, "copyright");
    MapAppend(WithTag(a, "copyright"), WithTag(b, "copyright"), CopyrightOf);
  }

  /** A document yields no file exactly when its root is not a `protocol`
      element; otherwise the file carries the document's names and exactly
      one protocol, built from the root. */
  lemma ProtocolFileOfRoot(info: ParsedInfo)
    ensures ProtocolFileOf(info).None? <==> info.parsed.tag != "protocol"
    ensures ProtocolFileOf(info).Some? ==>
      ProtocolFileOf(info).value == ProtocolFile(info.basename, info.dirname, [ProtocolOf(info.parsed)])
  {
  }

  /** Collecting is compositional: the files of two runs of documents are the
      files of the first run followed by the files of the second. */
  lemma CollectFilesAppend(a: seq<ParsedInfo>, b: seq<ParsedInfo>)
    ensures CollectFiles(a + b) == CollectFiles(a) + CollectFiles(b)
  {
    PresentAppend(a, b, ProtocolFileOf);
  }

  /** A single document contributes its file when it yields one, and nothing otherwise. */
  lemma CollectFilesSingle(d: ParsedInfo)
    ensures CollectFiles([d]) == (if d.parsed.tag == "protocol" then [ProtocolFileOf(d).value] else [])
  {
    assert [d][..0] == [];
  }

  /** Every collected file is the result of one of the documents, and every
      non-`None` result is collected. */
  lemma CollectFilesMembership(docs: seq<ParsedInfo>, f: ProtocolFile)
    ensures f in CollectFiles(docs) <==> exists i :: 0 <= i < |docs| && ProtocolFileOf(docs[i]) == Some(f)
  {
    PresentMembership(docs, ProtocolFileOf, f);
  }

  /** When every document is rooted at `protocol`, nothing is dropped: the
      `i`-th file comes from the `i`-th document. */
  lemma CollectFilesAllProtocol(docs: seq<ParsedInfo>)
    requires forall i :: 0 <= i < |docs| ==> docs[i].parsed.tag == "protocol"
    ensures |CollectFiles(docs)| == |docs|
    ensures forall i :: 0 <= i < |docs| ==> Some(CollectFiles(docs)[i]) == ProtocolFileOf(docs[i])
  {
    PresentAllSome(docs, ProtocolFileOf);
  }

  // ---------------------------------------------------------------------
  // The builder as the source runs it

  /** `apply_common_fields_to_object_from_element`: reads the name, then one
      trimmed description per `description` child and one verbatim copyright
      per `copyright` child, appending in document order. */
  method ApplyCommonFieldsToObjectFromElement(e: Element) returns (c: CommonFields)
    ensures c == CommonOf(e)
  {
    var name := Get(e, "name", "");
    var descrOs := DescriptionsFromElements(Children(e, "description"));
    var copyOs: seq<string> := [];
    var copys := Children(e, "copyright");
    var j := 0;
    while j < |copys|
      invariant 0 <= j <= |copys|
      invariant copyOs == Map(copys[..j], CopyrightOf)
    {
      var copy := copys[j];
      var t := copy.text;
      var text := if t.None? then "" else t.value;
      assert copys[..j + 1] == copys[..j] + [copy];
      MapSnoc(copys[..j], copy, CopyrightOf);
      copyOs := copyOs + [text];
      j := j + 1;
    }
    assert copys[..j] == copys;
    c := CommonFields(name, descrOs, copyOs);
  }

  /** The description loop of `apply_common_fields_to_object_from_element`:
      each text (`""` when missing) and summary is stripped. */
  method DescriptionsFromElements(descrs: seq<Element>) returns (descrOs: seq<Description>)
    ensures descrOs == Map(descrs, DescriptionOf)
  {
    descrOs := [];
    var i := 0;
    while i < |descrs|
      invariant 0 <= i <= |descrs|
      invariant descrOs == Map(descrs[..i], DescriptionOf)
    {
      var descr := descrs[i];
      var t := descr.text;
      var text := if t.None? then "" else t.value;
      var d := Description(Strip(text), Strip(Get(descr, "summary", "")));
      assert descrs[..i + 1] == descrs[..i] + [descr];
      MapSnoc(descrs[..i], descr, DescriptionOf);
      descrOs := descrOs + [d];
      i := i + 1;
    }
    assert descrs[..i] == descrs;
  }

  /** `apply_args_to_object`: appends one argument per `arg` child of `e`, in
      document order, to the arguments `obj` already has. */
  method ApplyArgsToObject(obj: Message, e: Element) returns (r: Message)
    ensures r.common == obj.common
    ensures r.arguments == obj.arguments + Map(Children(e, "arg"), ArgumentOf)
  {
    r := obj;
    var args := Children(e, "arg");
    var i := 0;
    while i < |args|
      invariant 0 <= i <= |args|
      invariant r == obj.(arguments := obj.arguments + Map(args[..i], ArgumentOf))
    {
      var arg := args[i];
      var argO := Argument(
        Get(arg, "name", "(no name)"),
        Get(arg, "type", "(no type)"),
        Get(arg, "interface", "(no interface)"),
        Get(arg, "summary", "(no summary)"));
      assert args[..i + 1] == args[..i] + [args[i]];
      r := r.(arguments := r.arguments + [argO]);
      i := i + 1;
    }
    assert args[..i] == args;
  }

  /** A request or an event: common fields, then its arguments. */
  method BuildMessage(e: Element) returns (m: Message)
    ensures m == MessageOf(e)
  {
    var common := ApplyCommonFieldsToObjectFromElement(e);
    m := ApplyArgsToObject(Message(common, []), e);
  }

  /** An enum: common fields, then one entry per `entry` child. */
  method BuildEnum(e: Element) returns (en: Enum)
    ensures en == EnumOf(e)
  {
    var common := ApplyCommonFieldsToObjectFromElement(e);
    en := Enum(common, []);
    var entrys := Children(e, "entry");
    var i := 0;
    while i < |entrys|
      invariant 0 <= i <= |entrys|
      invariant en == Enum(common, Map(entrys[..i], EntryOf))
    {
      var entry := entrys[i];
      var entryO := Entry(
        Get(entry, "name", "(no name)"),
        Get(entry, "value", "(no value)"),
        Get(entry, "summary", "(no summary)"));
      assert entrys[..i + 1] == entrys[..i] + [entrys[i]];
      en := en.(entries := en.entries + [entryO]);
      i := i + 1;
    }
    assert entrys[..i] == entrys;
  }

  /** One message per element of `es`, in order. */
  method BuildMessages(es: seq<Element>) returns (ms: seq<Message>)
    ensures ms == Map(es, MessageOf)
  {
    ms := [];
    var i := 0;
    while i < |es|
      invariant 0 <= i <= |es|
      invariant ms == Map(es[..i], MessageOf)
    {
      var m := BuildMessage(es[i]);
      assert es[..i + 1] == es[..i] + [es[i]];
      ms := ms + [m];
      i := i + 1;
    }
    assert es[..i] == es;
  }

  /** An interface: common fields, version, then its requests, events and
      enums, each appended in document order. */
  method BuildInterface(e: Element) returns (it: Interface)
    ensures it == InterfaceOf(e)
  {
    var common := ApplyCommonFieldsToObjectFromElement(e);
    var version := Get(e, "version", "0");
    var requests := BuildMessages(Children(e, "request"));
    var events := BuildMessages(Children(e, "event"));
    var enumOs: seq<Enum> := [];
    var enums := Children(e, "enum");
    var i := 0;
    while i < |enums|
      invariant 0 <= i <= |enums|
      invariant enumOs == Map(enums[..i], EnumOf)
    {
      var en := BuildEnum(enums[i]);
      assert enums[..i + 1] == enums[..i] + [enums[i]];
      enumOs := enumOs + [en];
      i := i + 1;
    }
    assert enums[..i] == enums;
    it := Interface(common, version, requests, events, enumOs);
  }

  /** A protocol: common fields, then one interface per `interface` child. */
  method BuildProtocol(e: Element) returns (p: Protocol)
    ensures p == ProtocolOf(e)
  {
    var common := ApplyCommonFieldsToObjectFromElement(e);
    p := Protocol(common, []);
    var interfaces := Children(e, "interface");
    var i := 0;
    while i < |interfaces|
      invariant 0 <= i <= |interfaces|
      invariant p == Protocol(common, Map(interfaces[..i], InterfaceOf))
    {
      var it := BuildInterface(interfaces[i]);
      assert interfaces[..i + 1] == interfaces[..i] + [interfaces[i]];
      p := p.(interfaces := p.interfaces + [it]);
      i := i + 1;
    }
    assert interfaces[..i] == interfaces;
  }

  /** `generate_ProtocolFile_for_parsed`: `None` when the document has no
      `protocol` root, otherwise the file with one protocol per root found. */
  method GenerateProtocolFileForParsed(info: ParsedInfo) returns (r: Option<ProtocolFile>)
    ensures r == ProtocolFileOf(info)
  {
    var protocolFile := ProtocolFile(info.basename, info.dirname, []);
    var protocols := ProtocolRoots(info.parsed);
    if |protocols| == 0 {
      return None;
    }
    var i := 0;
    while i < |protocols|
      invariant 0 <= i <= |protocols|
      invariant protocolFile == ProtocolFile(info.basename, info.dirname, Map(protocols[..i], ProtocolOf))
    {
      var protO := BuildProtocol(protocols[i]);
      assert protocols[..i + 1] == protocols[..i] + [protocols[i]];
      protocolFile := protocolFile.(protocols := protocolFile.protocols + [protO]);
      i := i + 1;
    }
    assert protocols[..i] == protocols;
    r := Some(protocolFile);
  }
}
