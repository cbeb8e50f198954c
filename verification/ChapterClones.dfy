/** Deep copies of chapters on the heap: equal in value, sharing no mutable cell. */
module ChapterClones {
  import opened Basics
  import opened RunPolicies
  import opened ChapterMetadata

  /** A metadata value whose list and map live in cells other values could share. */
  datatype Node = Node(kind: Kind, flag: bool, whole: int64, double: Float, text: string, list: Cell?, fields: Cell?)

  /** The backing store of one list or one map. */
  class Cell {
    var items: seq<Node>
    var entries: map<string, Node>

    constructor (items: seq<Node>, entries: map<string, Node>)
      ensures this.items == items && this.entries == entries
    {
      this.items, this.entries := items, entries;
    }
  }

  /** The node shows the value v, and every cell it can reach lies in r. A nil list or map
      shows an empty one. */
  ghost predicate Shows(n: Node, v: Meta, r: set<object>)
    reads r
    decreases v, 1
  {
    && n.kind == v.kind && n.flag == v.flag && n.whole == v.whole && n.double == v.double && n.text == v.text
    && (if n.list == null then v.list == [] else n.list in r && ListShows(n.list, v, r))
    && (if n.fields == null then v.fields == map[] else n.fields in r && MapShows(n.fields, v, r))
  }

  ghost predicate ListShows(c: Cell, v: Meta, r: set<object>)
    requires c in r
    reads r
    decreases v, 0
  {
    |c.items| == |v.list| && forall i :: 0 <= i < |v.list| ==> Shows(c.items[i], v.list[i], r)
  }

  ghost predicate MapShows(c: Cell, v: Meta, r: set<object>)
    requires c in r
    reads r
    decreases v, 0
  {
    c.entries.Keys == v.fields.Keys && forall k :: k in v.fields ==> Shows(c.entries[k], v.fields[k], r)
  }

  lemma {:induction false} ShowsMore(n: Node, v: Meta, r: set<object>, more: set<object>)
    requires Shows(n, v, r) && r <= more
    ensures Shows(n, v, more)
    decreases v
  {
    if n.list != null {
      forall i | 0 <= i < |v.list| ensures Shows(n.list.items[i], v.list[i], more) { ShowsMore(n.list.items[i], v.list[i], r, more); }
    }
    if n.fields != null {
      forall k | k in v.fields ensures Shows(n.fields.entries[k], v.fields[k], more) { ShowsMore(n.fields.entries[k], v.fields[k], r, more); }
    }
  }

  /** cloneChapterMetadataValue. */
  method CloneNode(n: Node, ghost v: Meta, ghost r: set<object>) returns (clone: Node, ghost s: set<object>)
    requires Shows(n, v, r)
    ensures fresh(s) && Shows(clone, v, s)
    decreases v, 1
  {
    var list: Cell?, fields: Cell? := null, null;
    ghost var below: set<object>, beside: set<object> := {}, {};
    // Appending nothing to a nil slice leaves it nil.
    if n.list != null && |n.list.items| > 0 { list, below := CloneItems(n.list, v, r); }
    if n.fields != null { fields, beside := CloneEntries(n.fields, v, r); }
    clone, s := n.(list := list, fields := fields), below + beside;
    if list != null { ListMore(list, v, below, s); }
    if fields != null { MapMore(fields, v, beside, s); }
  }

  lemma ListMore(c: Cell, v: Meta, r: set<object>, more: set<object>)
    requires c in r && ListShows(c, v, r) && r <= more
    ensures ListShows(c, v, more)
  {
    forall i | 0 <= i < |v.list| ensures Shows(c.items[i], v.list[i], more) { ShowsMore(c.items[i], v.list[i], r, more); }
  }

  lemma MapMore(c: Cell, v: Meta, r: set<object>, more: set<object>)
    requires c in r && MapShows(c, v, r) && r <= more
    ensures MapShows(c, v, more)
  {
    forall k | k in v.fields ensures Shows(c.entries[k], v.fields[k], more) { ShowsMore(c.entries[k], v.fields[k], r, more); }
  }

  /** The list part: copy the slice, then overwrite each element with its clone. */
  method CloneItems(c: Cell, ghost v: Meta, ghost r: set<object>) returns (clone: Cell, ghost s: set<object>)
    requires c in r && ListShows(c, v, r)
    ensures fresh(s) && clone in s && ListShows(clone, v, s)
    decreases v, 0
  {
    var items := c.items;
    ghost var below: set<object> := {};
    for i := 0 to |items|
      invariant |items| == |v.list| && fresh(below)
      invariant forall k :: i <= k < |items| ==> items[k] == c.items[k]
      invariant forall k :: 0 <= k < i ==> Shows(items[k], v.list[k], below)
    {
      var item, more := CloneNode(items[i], v.list[i], r);
      forall k | 0 <= k < i ensures Shows(items[k], v.list[k], below + more) { ShowsMore(items[k], v.list[k], below, below + more); }
      ShowsMore(item, v.list[i], more, below + more);
      items := items[i := item];
      below := below + more;
    }
    clone := new Cell(items, map[]);
    s := below + {clone};
    forall k | 0 <= k < |items| ensures Shows(items[k], v.list[k], s) { ShowsMore(items[k], v.list[k], below, s); }
  }

  /** cloneChapterMetadataFields: a new map filled name by name. */
  method CloneEntries(c: Cell, ghost v: Meta, ghost r: set<object>) returns (clone: Cell, ghost s: set<object>)
    requires c in r && MapShows(c, v, r)
    ensures fresh(s) && clone in s && MapShows(clone, v, s)
    decreases v, 0
  {
    var out: map<string, Node> := map[];
    var todo := c.entries.Keys;
    ghost var below: set<object> := {};
    while todo != {}
      invariant todo <= v.fields.Keys && out.Keys == v.fields.Keys - todo && fresh(below)
      invariant forall k :: k in out ==> Shows(out[k], v.fields[k], below)
      decreases todo
    {
      var name :| name in todo;
      var item, more := CloneNode(c.entries[name], v.fields[name], r);
      forall k | k in out ensures Shows(out[k], v.fields[k], below + more) { ShowsMore(out[k], v.fields[k], below, below + more); }
      ShowsMore(item, v.fields[name], more, below + more);
      out := out[name := item];
      below := below + more;
      todo := todo - {name};
    }
    clone := new Cell([], out);
    s := below + {clone};
    forall k | k in out ensures Shows(out[k], v.fields[k], s) { ShowsMore(out[k], v.fields[k], below, s); }
  }

  // ---- Error attributes ----------------------------------------------------------------------

  type Buffer = array?<bv8>
  type Strings = array?<string>

  /** Something behind an attribute of a type the cloner does not know: a pointer, a map of
      another type, a slice of another type. */
  class Opaque {
    var content: string

    constructor (content: string)
      ensures this.content == content
    {
      this.content := content;
    }
  }

  /** An attribute value: nested maps and lists, typed slices, or anything else, which is
      copied as it is, a reference included. */
  datatype Attr = AttrMap(map_: AttrCell?) | AttrList(list: AttrCell?) | AttrTexts(texts: Strings)
                | AttrBytes(bytes: Buffer) | AttrOther(plain: string, ref: Opaque?)

  class AttrCell {
    var items: seq<Attr>
    var entries: map<string, Attr>

    constructor (items: seq<Attr>, entries: map<string, Attr>)
      ensures this.items == items && this.entries == entries
    {
      this.items, this.entries := items, entries;
    }
  }

  datatype AttrView = MapView(entries: map<string, AttrView>) | ListView(items: seq<AttrView>)
                    | TextsView(texts: seq<string>) | BytesView(bytes: seq<bv8>) | OtherView(plain: string, ref: Opaque?)

  /** The references an attribute holds at any depth through values the cloner copies as they are. */
  ghost function SharedIn(v: AttrView): set<Opaque>
    decreases v
  {
    match v
    case MapView(entries) => set k, o | k in entries && o in SharedIn(entries[k]) :: o
    case ListView(items) => set i, o | 0 <= i < |items| && o in SharedIn(items[i]) :: o
    case OtherView(_, ref) => if ref == null then {} else {ref}
    case _ => {}
  }

  /** A slice shows its elements; nil and empty slices show the same. */
  ghost predicate TextsShow(a: Strings, v: seq<string>, r: set<object>)
    reads r
  {
    if a == null || a.Length == 0 then v == [] else a in r && a[..] == v
  }

  ghost predicate BytesShow(a: Buffer, v: seq<bv8>, r: set<object>)
    reads r
  {
    if a == null || a.Length == 0 then v == [] else a in r && a[..] == v
  }

  ghost predicate AttrShows(a: Attr, v: AttrView, r: set<object>)
    reads r
    decreases v, 1
  {
    match a
    case AttrMap(m) => v.MapView? && if m == null then v.entries == map[] else m in r && EntriesShow(m, v, r)
    case AttrList(l) => v.ListView? && if l == null then v.items == [] else l in r && ElementsShow(l, v, r)
    case AttrTexts(t) => v.TextsView? && TextsShow(t, v.texts, r)
    case AttrBytes(b) => v.BytesView? && BytesShow(b, v.bytes, r)
    case AttrOther(plain, ref) => v == OtherView(plain, ref)
  }

  ghost predicate EntriesShow(c: AttrCell, v: AttrView, r: set<object>)
    requires c in r && v.MapView?
    reads r
    decreases v, 0
  {
    c.entries.Keys == v.entries.Keys && forall k :: k in v.entries ==> AttrShows(c.entries[k], v.entries[k], r)
  }

  ghost predicate ElementsShow(c: AttrCell, v: AttrView, r: set<object>)
    requires c in r && v.ListView?
    reads r
    decreases v, 0
  {
    |c.items| == |v.items| && forall i :: 0 <= i < |v.items| ==> AttrShows(c.items[i], v.items[i], r)
  }

  lemma {:induction false} AttrMore(a: Attr, v: AttrView, r: set<object>, more: set<object>)
    requires AttrShows(a, v, r) && r <= more
    ensures AttrShows(a, v, more)
    decreases v
  {
    match a {
      case AttrMap(m) =>
        if m != null {
          forall k | k in v.entries ensures AttrShows(m.entries[k], v.entries[k], more) { AttrMore(m.entries[k], v.entries[k], r, more); }
        }
      case AttrList(l) =>
        if l != null {
          forall i | 0 <= i < |v.items| ensures AttrShows(l.items[i], v.items[i], more) { AttrMore(l.items[i], v.items[i], r, more); }
        }
      case _ =>
    }
  }

  /** append([]string(nil), a...): nil for an empty slice, else a new array. */
  method CloneTexts(a: Strings, ghost v: seq<string>, ghost r: set<object>) returns (clone: Strings, ghost s: set<object>)
    requires TextsShow(a, v, r)
    ensures fresh(s) && TextsShow(clone, v, s) && (clone == null <==> v == [])
  {
    clone, s := null, {};
    if a != null && a.Length > 0 {
      clone := new string[a.Length](i requires 0 <= i < a.Length reads a => a[i]);
      s := {clone};
      assert clone[..] == a[..];
    }
  }

  /** cloneJSON. */
  method CloneBuffer(a: Buffer, ghost v: seq<bv8>, ghost r: set<object>) returns (clone: Buffer, ghost s: set<object>)
    requires BytesShow(a, v, r)
    ensures fresh(s) && BytesShow(clone, v, s) && (clone == null <==> v == [])
  {
    clone, s := null, {};
    if a != null && a.Length > 0 {
      clone := new bv8[a.Length](i requires 0 <= i < a.Length reads a => a[i]);
      s := {clone};
      assert clone[..] == a[..];
    }
  }

  /** cloneAttrValue: a nil map stays nil, a list is made anew, typed slices are appended. */
  method CloneAttr(a: Attr, ghost v: AttrView, ghost r: set<object>) returns (clone: Attr, ghost s: set<object>)
    requires AttrShows(a, v, r)
    ensures fresh(s) && AttrShows(clone, v, s)
    decreases v, 1
  {
    s := {};
    match a {
      case AttrMap(m) =>
        var cell: AttrCell? := null;
        if m != null { cell, s := CloneAttrs(m, v, r); }
        clone := AttrMap(cell);
      case AttrList(l) =>
        var cell;
        cell, s := CloneElements(l, v, r);
        clone := AttrList(cell);
      case AttrTexts(t) =>
        var texts;
        texts, s := CloneTexts(t, v.texts, r);
        clone := AttrTexts(texts);
      case AttrBytes(b) =>
        var bytes;
        bytes, s := CloneBuffer(b, v.bytes, r);
        clone := AttrBytes(bytes);
      case AttrOther(_, _) => clone := a;
    }
  }

  /** cloneAttrs. */
  method CloneAttrs(c: AttrCell, ghost v: AttrView, ghost r: set<object>) returns (clone: AttrCell, ghost s: set<object>)
    requires c in r && v.MapView? && EntriesShow(c, v, r)
    ensures fresh(s) && clone in s && EntriesShow(clone, v, s)
    decreases v, 0
  {
    var out: map<string, Attr>, todo := map[], c.entries.Keys;
    ghost var below: set<object> := {};
    while todo != {}
      invariant todo <= v.entries.Keys && out.Keys == v.entries.Keys - todo && fresh(below)
      invariant forall k :: k in out ==> AttrShows(out[k], v.entries[k], below)
      decreases todo
    {
      var name :| name in todo;
      var item, more := CloneAttr(c.entries[name], v.entries[name], r);
      forall k | k in out ensures AttrShows(out[k], v.entries[k], below + more) { AttrMore(out[k], v.entries[k], below, below + more); }
      AttrMore(item, v.entries[name], more, below + more);
      out, below, todo := out[name := item], below + more, todo - {name};
    }
    clone := new AttrCell([], out);
    s := below + {clone};
    forall k | k in out ensures AttrShows(out[k], v.entries[k], s) { AttrMore(out[k], v.entries[k], below, s); }
  }

  method CloneElements(c: AttrCell?, ghost v: AttrView, ghost r: set<object>) returns (clone: AttrCell, ghost s: set<object>)
    requires v.ListView? && if c == null then v.items == [] else c in r && ElementsShow(c, v, r)
    ensures fresh(s) && clone in s && ElementsShow(clone, v, s)
    decreases v, 0
  {
    var source := if c == null then [] else c.items;
    var out: seq<Attr> := [];
    ghost var below: set<object> := {};
    for i := 0 to |source|
      invariant |out| == i && fresh(below)
      invariant forall k :: 0 <= k < i ==> AttrShows(out[k], v.items[k], below)
    {
      var item, more := CloneAttr(source[i], v.items[i], r);
      forall k | 0 <= k < i ensures AttrShows(out[k], v.items[k], below + more) { AttrMore(out[k], v.items[k], below, below + more); }
      AttrMore(item, v.items[i], more, below + more);
      out, below := out + [item], below + more;
    }
    clone := new AttrCell(out, map[]);
    s := below + {clone};
    forall k | 0 <= k < |out| ensures AttrShows(out[k], v.items[k], s) { AttrMore(out[k], v.items[k], below, s); }
  }

  // ---- Whole chapters ------------------------------------------------------------------------

  class Ref {
    var text: string
    constructor (text: string)
      ensures this.text == text
    {
      this.text := text;
    }
  }

  /** `rest` stands for the fields that are copied with their struct. */
  datatype Outcome = Output(data: Buffer)
                   | AppError(attrs: AttrCell?, stack: Strings, input: Ref?, rest: string)
                   | SystemError(stack: Strings, input: Ref?, rest: string)
                   | Timeout(input: Ref?, rest: string)

  class OutcomeBox {
    var outcome: Outcome
    constructor (outcome: Outcome)
      ensures this.outcome == outcome
    {
      this.outcome := outcome;
    }
  }

  /** An interface value holds a struct, a pointer that may be nil, or nothing. */
  datatype AnyOutcome = OutcomeValue(outcome: Outcome) | OutcomePointer(box: OutcomeBox?) | NoOutcome

  datatype Body = Execution(record: Buffer) | JobStart(input: Buffer) | RestartExtra(output: Buffer)
                | JobAttempt(outcome: AnyOutcome) | TaskAttempt(outcome: AnyOutcome)

  class BodyBox {
    var body: Body
    constructor (body: Body)
      ensures this.body == body
    {
      this.body := body;
    }
  }

  datatype AnyBody = BodyValue(body: Body) | BodyPointer(box: BodyBox?) | NoBody

  datatype Chapter = Chapter(body: AnyBody, metadata: Cell?, artifacts: Strings, rest: string)

  datatype OutcomeView = OutputView(data: seq<bv8>)
                       | AppErrorView(attrs: Option<AttrView>, stack: seq<string>, input: Option<string>, rest: string)
                       | SystemErrorView(stack: seq<string>, input: Option<string>, rest: string)
                       | TimeoutView(input: Option<string>, rest: string)

  datatype BodyView = ExecutionView(record: seq<bv8>) | JobStartView(input: seq<bv8>) | RestartExtraView(output: seq<bv8>)
                    | JobAttemptView(outcome: Option<OutcomeView>) | TaskAttemptView(outcome: Option<OutcomeView>)

  datatype ChapterView = ChapterView(body: Option<BodyView>, metadata: Option<Meta>, artifacts: seq<string>, rest: string)

  ghost predicate MetadataShows(c: Cell?, v: Option<Meta>, r: set<object>)
    reads r
  {
    if c == null then v.None? else v.Some? && c in r && MapShows(c, v.value, r)
  }

  ghost predicate AttrsShow(c: AttrCell?, v: Option<AttrView>, r: set<object>)
    reads r
  {
    if c == null then v.None? else v.Some? && v.value.MapView? && c in r && EntriesShow(c, v.value, r)
  }

  ghost predicate RefShows(x: Ref?, v: Option<string>, r: set<object>)
    reads r
  {
    if x == null then v.None? else x in r && v == Some(x.text)
  }

  ghost predicate OutcomeShows(o: Outcome, v: OutcomeView, r: set<object>)
    reads r
  {
    match o
    case Output(data) => v.OutputView? && BytesShow(data, v.data, r)
    case AppError(attrs, stack, input, rest) =>
      v.AppErrorView? && AttrsShow(attrs, v.attrs, r) && TextsShow(stack, v.stack, r) && RefShows(input, v.input, r) && v.rest == rest
    case SystemError(stack, input, rest) =>
      v.SystemErrorView? && TextsShow(stack, v.stack, r) && RefShows(input, v.input, r) && v.rest == rest
    case Timeout(input, rest) => v.TimeoutView? && RefShows(input, v.input, r) && v.rest == rest
  }

  /** A pointer shows what it points to; nil and missing show nothing. */
  ghost predicate AnyOutcomeShows(o: AnyOutcome, v: Option<OutcomeView>, r: set<object>)
    reads r
  {
    match o
    case OutcomeValue(x) => v.Some? && OutcomeShows(x, v.value, r)
    case OutcomePointer(box) => if box == null then v.None? else v.Some? && box in r && OutcomeShows(box.outcome, v.value, r)
    case NoOutcome => v.None?
  }

  ghost predicate BodyShows(b: Body, v: BodyView, r: set<object>)
    reads r
  {
    match b
    case Execution(data) => v.ExecutionView? && BytesShow(data, v.record, r)
    case JobStart(data) => v.JobStartView? && BytesShow(data, v.input, r)
    case RestartExtra(data) => v.RestartExtraView? && BytesShow(data, v.output, r)
    case JobAttempt(o) => v.JobAttemptView? && AnyOutcomeShows(o, v.outcome, r)
    case TaskAttempt(o) => v.TaskAttemptView? && AnyOutcomeShows(o, v.outcome, r)
  }

  ghost predicate AnyBodyShows(b: AnyBody, v: Option<BodyView>, r: set<object>)
    reads r
  {
    match b
    case BodyValue(x) => v.Some? && BodyShows(x, v.value, r)
    case BodyPointer(box) => if box == null then v.None? else v.Some? && box in r && BodyShows(box.body, v.value, r)
    case NoBody => v.None?
  }

  /** The chapter shows v through the objects in r alone. */
  ghost predicate ChapterShows(c: Chapter, v: ChapterView, r: set<object>)
    reads r
  {
    && AnyBodyShows(c.body, v.body, r) && MetadataShows(c.metadata, v.metadata, r)
    && TextsShow(c.artifacts, v.artifacts, r) && c.rest == v.rest
  }

  lemma AttrsMore(c: AttrCell?, v: Option<AttrView>, r: set<object>, more: set<object>)
    requires AttrsShow(c, v, r) && r <= more
    ensures AttrsShow(c, v, more)
  {
    if c != null {
      forall k | k in v.value.entries ensures AttrShows(c.entries[k], v.value.entries[k], more) {
        AttrMore(c.entries[k], v.value.entries[k], r, more);
      }
    }
  }

  lemma OutcomeMore(o: Outcome, v: OutcomeView, r: set<object>, more: set<object>)
    requires OutcomeShows(o, v, r) && r <= more
    ensures OutcomeShows(o, v, more)
  {
    if o.AppError? { AttrsMore(o.attrs, v.attrs, r, more); }
  }

  lemma AnyOutcomeMore(o: AnyOutcome, v: Option<OutcomeView>, r: set<object>, more: set<object>)
    requires AnyOutcomeShows(o, v, r) && r <= more
    ensures AnyOutcomeShows(o, v, more)
  {
    match o {
      case OutcomeValue(x) => OutcomeMore(x, v.value, r, more);
      case OutcomePointer(box) => if box != null { OutcomeMore(box.outcome, v.value, r, more); }
      case NoOutcome =>
    }
  }

  lemma BodyMore(b: Body, v: BodyView, r: set<object>, more: set<object>)
    requires BodyShows(b, v, r) && r <= more
    ensures BodyShows(b, v, more)
  {
    if b.JobAttempt? || b.TaskAttempt? { AnyOutcomeMore(b.outcome, v.outcome, r, more); }
  }

  lemma AnyBodyMore(b: AnyBody, v: Option<BodyView>, r: set<object>, more: set<object>)
    requires AnyBodyShows(b, v, r) && r <= more
    ensures AnyBodyShows(b, v, more)
  {
    match b {
      case BodyValue(x) => BodyMore(x, v.value, r, more);
      case BodyPointer(box) => if box != null { BodyMore(box.body, v.value, r, more); }
      case NoBody =>
    }
  }

  method CloneRef(x: Ref?, ghost v: Option<string>, ghost r: set<object>) returns (clone: Ref?, ghost s: set<object>)
    requires RefShows(x, v, r)
    ensures fresh(s) && RefShows(clone, v, s)
  {
    clone, s := null, {};
    if x != null {
      clone := new Ref(x.text);
      s := {clone};
    }
  }

  /** The error payload clones and the output buffer. */
  method CloneOutcome(o: Outcome, ghost v: OutcomeView, ghost r: set<object>) returns (clone: Outcome, ghost s: set<object>)
    requires OutcomeShows(o, v, r)
    ensures fresh(s) && OutcomeShows(clone, v, s)
  {
    match o {
      case Output(data) =>
        var copy;
        copy, s := CloneBuffer(data, v.data, r);
        clone := Output(copy);
      case AppError(attrs, stack, input, rest) =>
        var cell: AttrCell? := null;
        ghost var cells: set<object> := {};
        if attrs != null { cell, cells := CloneAttrs(attrs, v.attrs.value, r); }
        var texts, lines := CloneTexts(stack, v.stack, r);
        var ref, boxes := CloneRef(input, v.input, r);
        clone, s := AppError(cell, texts, ref, rest), cells + lines + boxes;
        AttrsMore(cell, v.attrs, cells, s);
      case SystemError(stack, input, rest) =>
        var texts, lines := CloneTexts(stack, v.stack, r);
        var ref, boxes := CloneRef(input, v.input, r);
        clone, s := SystemError(texts, ref, rest), lines + boxes;
      case Timeout(input, rest) =>
        var ref;
        ref, s := CloneRef(input, v.input, r);
        clone := Timeout(ref, rest);
    }
  }

  /** CloneChapterOutcome: a pointer gets a new struct, a nil pointer becomes nothing. */
  method CloneAnyOutcome(o: AnyOutcome, ghost v: Option<OutcomeView>, ghost r: set<object>) returns (clone: AnyOutcome, ghost s: set<object>)
    requires AnyOutcomeShows(o, v, r)
    ensures fresh(s) && AnyOutcomeShows(clone, v, s)
  {
    clone, s := NoOutcome, {};
    match o {
      case OutcomeValue(x) =>
        var copy;
        copy, s := CloneOutcome(x, v.value, r);
        clone := OutcomeValue(copy);
      case OutcomePointer(box) =>
        if box != null {
          var copy, below := CloneOutcome(box.outcome, v.value, r);
          var fresh_ := new OutcomeBox(copy);
          clone, s := OutcomePointer(fresh_), below + {fresh_};
          OutcomeMore(copy, v.value, below, s);
        }
      case NoOutcome =>
    }
  }

  method CloneStruct(b: Body, ghost v: BodyView, ghost r: set<object>) returns (clone: Body, ghost s: set<object>)
    requires BodyShows(b, v, r)
    ensures fresh(s) && BodyShows(clone, v, s)
  {
    match b {
      case Execution(data) =>
        var copy;
        copy, s := CloneBuffer(data, v.record, r);
        clone := Execution(copy);
      case JobStart(data) =>
        var copy;
        copy, s := CloneBuffer(data, v.input, r);
        clone := JobStart(copy);
      case RestartExtra(data) =>
        var copy;
        copy, s := CloneBuffer(data, v.output, r);
        clone := RestartExtra(copy);
      case JobAttempt(o) =>
        var copy;
        copy, s := CloneAnyOutcome(o, v.outcome, r);
        clone := JobAttempt(copy);
      case TaskAttempt(o) =>
        var copy;
        copy, s := CloneAnyOutcome(o, v.outcome, r);
        clone := TaskAttempt(copy);
    }
  }

  /** CloneChapterBody. */
  method CloneBody(b: AnyBody, ghost v: Option<BodyView>, ghost r: set<object>) returns (clone: AnyBody, ghost s: set<object>)
    requires AnyBodyShows(b, v, r)
    ensures fresh(s) && AnyBodyShows(clone, v, s)
  {
    clone, s := NoBody, {};
    match b {
      case BodyValue(x) =>
        var copy;
        copy, s := CloneStruct(x, v.value, r);
        clone := BodyValue(copy);
      case BodyPointer(box) =>
        if box != null {
          var copy, below := CloneStruct(box.body, v.value, r);
          var fresh_ := new BodyBox(copy);
          clone, s := BodyPointer(fresh_), below + {fresh_};
          BodyMore(copy, v.value, below, s);
        }
      case NoBody =>
    }
  }

  /** CloneChapterMetadata. */
  method CloneMetadata(c: Cell?, ghost v: Option<Meta>, ghost r: set<object>) returns (clone: Cell?, ghost s: set<object>)
    requires MetadataShows(c, v, r)
    ensures fresh(s) && MetadataShows(clone, v, s)
  {
    clone, s := null, {};
    if c != null { clone, s := CloneEntries(c, v.value, r); }
  }

  /** A nonempty artifact slice is copied; an empty one has no elements to share. */
  method CloneArtifacts(a: Strings, ghost v: seq<string>, ghost r: set<object>) returns (clone: Strings, ghost s: set<object>)
    requires TextsShow(a, v, r)
    ensures fresh(s) && TextsShow(clone, v, s)
  {
    clone, s := a, {};
    if a != null && a.Length > 0 { clone, s := CloneTexts(a, v, r); }
  }

  method CloneParts(c: Cell?, a: Strings, ghost v: ChapterView, ghost r: set<object>)
    returns (metadata: Cell?, artifacts: Strings, ghost s: set<object>)
    requires MetadataShows(c, v.metadata, r) && TextsShow(a, v.artifacts, r)
    ensures fresh(s) && MetadataShows(metadata, v.metadata, s) && TextsShow(artifacts, v.artifacts, s)
  {
    ghost var slice;
    artifacts, slice := CloneArtifacts(a, v.artifacts, r);
    metadata, s := CloneMetadata(c, v.metadata, r);
    if metadata != null { MapMore(metadata, v.metadata.value, s, s + slice); }
    s := s + slice;
  }

  lemma Assembled(c: Chapter, v: ChapterView, body: set<object>, parts: set<object>)
    requires AnyBodyShows(c.body, v.body, body) && MetadataShows(c.metadata, v.metadata, parts)
    requires TextsShow(c.artifacts, v.artifacts, parts) && c.rest == v.rest
    ensures ChapterShows(c, v, body + parts)
  {
    AnyBodyMore(c.body, v.body, body, body + parts);
    if c.metadata != null { MapMore(c.metadata, v.metadata.value, parts, body + parts); }
  }

  // ---- What source and clone share -----------------------------------------------------------------

  ghost function SharedByOutcome(v: Option<OutcomeView>): set<Opaque> {
    if v.Some? && v.value.AppErrorView? && v.value.attrs.Some? then SharedIn(v.value.attrs.value) else {}
  }

  /** The references a chapter's error attributes hold to values of other types. */
  ghost function SharedBy(v: ChapterView): set<Opaque> {
    if v.body.Some? && (v.body.value.JobAttemptView? || v.body.value.TaskAttemptView?)
    then SharedByOutcome(v.body.value.outcome) else {}
  }

  ghost function SharedObjects(v: ChapterView): set<object> {
    set o | o in SharedBy(v) :: o
  }

  /** What a reader sees behind those references. */
  ghost function Seen(v: ChapterView): map<Opaque, string>
    reads SharedBy(v)
  {
    map o | o in SharedBy(v) :: o.content
  }

  /** CloneChapter: the clone shows the same chapter, at any depth of nesting and in value or
      pointer form, through objects none of which existed before. All that it has in common
      with its source are the references to values of other types. */
  method CloneChapter(c: Chapter, ghost v: ChapterView, ghost r: set<object>) returns (clone: Chapter, ghost s: set<object>)
    requires ChapterShows(c, v, r) && forall o :: o in SharedBy(v) ==> allocated(o)
    ensures ChapterShows(clone, v, s) && fresh(s) && s !! r
    ensures forall x :: x in s + SharedObjects(v) && x in r + SharedObjects(v) <==> x in SharedObjects(v)
  {
    var metadata, artifacts, beside := CloneParts(c.metadata, c.artifacts, v, r);
    var body, below := CloneBody(c.body, v.body, r);
    clone, s := Chapter(body, metadata, artifacts, c.rest), below + beside;
    Assembled(clone, v, below, beside);
  }

  /** The two are wholly separate exactly when there is no such reference. */
  lemma SeparateIff(v: ChapterView, r: set<object>, s: set<object>)
    requires r !! s && s !! SharedObjects(v)
    ensures r + SharedObjects(v) !! s + SharedObjects(v) <==> SharedBy(v) == {}
  {
    if o :| o in SharedBy(v) {
      var x: object := o;
      assert x in SharedObjects(v);
    }
  }

  /** Edits to either of a chapter and its clone: whatever is written into objects of one
      side, the other shows the chapter it showed. */
  twostate lemma EditsStayApart(c: Chapter, clone: Chapter, v: ChapterView, r: set<object>, s: set<object>, edited: set<object>)
    requires old(ChapterShows(c, v, r)) && old(ChapterShows(clone, v, s)) && r !! s
    requires forall x :: x in r ==> old(allocated(x)) && (x !in edited ==> unchanged(x))
    requires forall x :: x in s ==> old(allocated(x)) && (x !in edited ==> unchanged(x))
    ensures edited <= r ==> ChapterShows(clone, v, s)
    ensures edited <= s ==> ChapterShows(c, v, r)
  {
  }

  /** A clone taken before a cell of the source, at whatever depth, is overwritten still shows
      the chapter as it was. */
  method CloneThenWrite(c: Chapter, ghost v: ChapterView, ghost r: set<object>, cell: Cell, items: seq<Node>, entries: map<string, Node>)
    returns (clone: Chapter, ghost s: set<object>)
    requires ChapterShows(c, v, r) && cell in r && forall o :: o in SharedBy(v) ==> allocated(o)
    modifies cell
    ensures ChapterShows(clone, v, s) && fresh(s) && cell.items == items && cell.entries == entries
  {
    clone, s := CloneChapter(c, v, r);
    cell.items, cell.entries := items, entries;
  }

  /** What is read behind the shared references changes, for source and clone alike, exactly
      when one of those was written. */
  twostate lemma SeenChangesIff(v: ChapterView)
    requires forall o :: o in SharedBy(v) ==> old(allocated(o))
    ensures Seen(v) == old(Seen(v)) <==> forall o :: o in SharedBy(v) ==> o.content == old(o.content)
  {
    if Seen(v) == old(Seen(v)) {
      forall o | o in SharedBy(v) ensures o.content == old(o.content) { assert Seen(v)[o] == old(Seen(v))[o]; }
    }
  }

  /** Such an edit does show through: written behind the source's attribute, read behind the
      clone's. */
  method EditShowsThrough(o: Opaque, text: string) returns (clone: Attr)
    modifies o
    ensures clone.AttrOther? && clone.ref == o && clone.ref.content == text
  {
    var source, view := AttrOther("", o), OtherView("", o);
    ghost var s;
    clone, s := CloneAttr(source, view, {});
    source.ref.content := text;
  }
}
