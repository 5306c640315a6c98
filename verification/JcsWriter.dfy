/** The writer as the code runs it, appending to one shared buffer, and the seal digest computed
    from its output. */
module JcsWriter {
  import opened Text
  import opened Json
  import opened Jcs

  /** `bytes.Buffer`. */
  class Buffer {
    var data: string

    constructor ()
      ensures data == ""
    {
      data := "";
    }

    method Write(s: string)
      modifies this
      ensures data == old(data) + s
    {
      data := data + s;
    }
  }

  /** What is still to be written of an array once i elements are out. */
  ghost function ItemsLeft(lib: FloatLib, vs: seq<Value>, i: nat): string
    requires Lawful(lib) && i <= |vs| && forall j :: 0 <= j < |vs| ==> Printable(lib, vs[j])
  {
    if i == |vs| then "]" else (if i > 0 then "," else "") + ItemsText(CanonItems(lib, vs[i..]))
  }

  lemma NextItem(lib: FloatLib, vs: seq<Value>, i: nat)
    requires Lawful(lib) && i < |vs| && forall j :: 0 <= j < |vs| ==> Printable(lib, vs[j])
    ensures ItemsLeft(lib, vs, i) == (if i > 0 then "," else "") + Print(lib, vs[i]) + ItemsLeft(lib, vs, i + 1)
  {
    var items := CanonItems(lib, vs[i..]);
    assert vs[i..][0] == vs[i] && vs[i..][1..] == vs[i + 1..];
    assert items[0] == Item("", CanonDoc(lib, vs[i]), "");
    assert items[1..] == CanonItems(lib, vs[i + 1..]);
    BareItemText(CanonDoc(lib, vs[i]));
    ItemsTextStep(items);
  }

  lemma BareItemText(doc: Doc)
    ensures ItemText(Item("", doc, "")) == DocText(doc)
  {
  }

  lemma ItemsTextStep(items: seq<Item>)
    requires items != []
    ensures ItemsText(items) == ItemText(items[0]) + if |items| == 1 then "]" else "," + ItemsText(items[1..])
  {
  }

  /** What is still to be written of an object once i members are out. */
  ghost function MembersLeft(lib: FloatLib, v: Value, keys: seq<string>, i: nat): string
    requires Lawful(lib) && v.Obj? && Printable(lib, v) && i <= |keys| && forall k :: k in keys ==> k in v.members
  {
    if i == |keys| then "}" else (if i > 0 then "," else "") + MembersText(CanonMembers(lib, v, keys[i..]))
  }

  function QuotedText(s: string): string {
    "\"" + PiecesText(EscapeAll(s)) + "\""
  }

  lemma BareMemberText(ps: seq<Piece>, doc: Doc)
    ensures MemberText(Member("", ps, "", Item("", doc, ""))) == (("\"" + PiecesText(ps) + "\"") + ":") + DocText(doc)
  {
    var m := Member("", ps, "", Item("", doc, ""));
    var body, value := PiecesText(ps), DocText(doc);
    BareItemText(doc);
    assert "" + (":" + value) == ":" + value;
    assert KeyOnward(m) == body + "\"" + (":" + value);
    assert MemberText(m) == "\"" + KeyOnward(m);
    Regroup(body, value);
  }

  lemma Regroup(body: string, value: string)
    ensures "\"" + (body + "\"" + (":" + value)) == (("\"" + body + "\"") + ":") + value
  {
  }

  lemma MembersTextStep(ms: seq<Member>)
    requires ms != []
    ensures MembersText(ms) == MemberText(ms[0]) + if |ms| == 1 then "}" else "," + MembersText(ms[1..])
  {
  }

  lemma CanonMemberText(lib: FloatLib, v: Value, key: string)
    requires Lawful(lib) && v.Obj? && Printable(lib, v) && key in v.members
    ensures MemberText(CanonMember(lib, v, key)) == (QuotedText(key) + ":") + Print(lib, v.members[key])
  {
    BareMemberText(EscapeAll(key), CanonDoc(lib, v.members[key]));
  }

  /** A part put in front of a joined text. */
  lemma InFront(comma: string, name: string, value: string, rest: string)
    ensures comma + ((name + value) + rest) == ((comma + name) + value) + rest
  {
  }

  lemma MembersAt(lib: FloatLib, v: Value, keys: seq<string>, i: nat)
    requires Lawful(lib) && v.Obj? && Printable(lib, v) && i < |keys| && forall k :: k in keys ==> k in v.members
    ensures keys[i] in v.members
    ensures MembersText(CanonMembers(lib, v, keys[i..])) ==
            MemberText(CanonMember(lib, v, keys[i])) + MembersLeft(lib, v, keys, i + 1)
  {
    assert keys[i] in keys;
    var ms := CanonMembers(lib, v, keys[i..]);
    assert keys[i..][0] == keys[i] && keys[i..][1..] == keys[i + 1..];
    assert ms[0] == CanonMember(lib, v, keys[i]) && ms[1..] == CanonMembers(lib, v, keys[i + 1..]);
    MembersTextStep(ms);
    assert i + 1 == |keys| <==> |ms| == 1;
  }

  lemma {:induction false} NextMember(lib: FloatLib, v: Value, keys: seq<string>, i: nat)
    requires Lawful(lib) && v.Obj? && Printable(lib, v) && i < |keys| && forall k :: k in keys ==> k in v.members
    ensures keys[i] in v.members
    ensures MembersLeft(lib, v, keys, i) ==
            (((if i > 0 then "," else "") + (QuotedText(keys[i]) + ":")) + Print(lib, v.members[keys[i]])) +
            MembersLeft(lib, v, keys, i + 1)
  {
    MembersAt(lib, v, keys, i);
    CanonMemberText(lib, v, keys[i]);
    InFront(if i > 0 then "," else "", QuotedText(keys[i]) + ":", Print(lib, v.members[keys[i]]), MembersLeft(lib, v, keys, i + 1));
  }

  /** The text written so far is what the first i elements of the array need. */
  ghost predicate ItemsWritten(lib: FloatLib, vs: seq<Value>, i: nat, written: string)
    requires Lawful(lib) && i <= |vs| && forall j :: 0 <= j < |vs| ==> Printable(lib, vs[j])
  {
    written + ItemsLeft(lib, vs, i) == ItemsLeft(lib, vs, 0)
  }

  lemma MovesOn(written: string, piece: string, left: string)
    ensures (written + piece) + left == written + (piece + left)
  {
  }

  lemma WroteItem(lib: FloatLib, vs: seq<Value>, i: nat, written: string, piece: string)
    requires Lawful(lib) && i < |vs| && forall j :: 0 <= j < |vs| ==> Printable(lib, vs[j])
    requires piece == (if i > 0 then "," else "") + Print(lib, vs[i])
    requires ItemsWritten(lib, vs, i, written)
    ensures ItemsWritten(lib, vs, i + 1, written + piece)
  {
    NextItem(lib, vs, i);
    MovesOn(written, piece, ItemsLeft(lib, vs, i + 1));
  }

  /** The text written so far is what the first i members of the object need. */
  ghost predicate MembersWritten(lib: FloatLib, v: Value, keys: seq<string>, i: nat, written: string)
    requires Lawful(lib) && v.Obj? && Printable(lib, v) && i <= |keys| && forall k :: k in keys ==> k in v.members
  {
    written + MembersLeft(lib, v, keys, i) == MembersLeft(lib, v, keys, 0)
  }

  lemma WroteMember(lib: FloatLib, v: Value, keys: seq<string>, i: nat, written: string, piece: string)
    requires Lawful(lib) && v.Obj? && Printable(lib, v) && i < |keys| && forall k :: k in keys ==> k in v.members
    requires keys[i] in v.members
    requires piece == ((if i > 0 then "," else "") + (QuotedText(keys[i]) + ":")) + Print(lib, v.members[keys[i]])
    requires MembersWritten(lib, v, keys, i, written)
    ensures MembersWritten(lib, v, keys, i + 1, written + piece)
  {
    NextMember(lib, v, keys, i);
    MovesOn(written, piece, MembersLeft(lib, v, keys, i + 1));
  }

  /** The keys in whatever order the map yields them, then sorted. */
  method CollectKeys(members: map<string, Value>) returns (keys: seq<string>)
    ensures keys == SortedKeys(members.Keys)
  {
    keys := [];
    var left := members.Keys;
    while left != {}
      invariant left <= members.Keys
      invariant forall k :: k in keys <==> k in members.Keys - left
      invariant forall i, j :: 0 <= i < j < |keys| ==> keys[i] != keys[j]
      decreases |left|
    {
      var k :| k in left;
      assert k !in keys;
      assert forall i :: 0 <= i < |keys| ==> keys[i] in keys;
      keys := keys + [k];
      left := left - {k};
    }
    keys := InsertAll(keys);
    SortedIsUnique(keys, SortedKeys(members.Keys));
  }

  /** `jcsWriteValue`. It fails exactly on values with a number out of range, and otherwise appends
      the canonical text; the iteration order of maps has no influence. */
  method WriteValue(lib: FloatLib, buf: Buffer, v: Value) returns (ok: bool)
    requires Lawful(lib)
    modifies buf
    ensures ok <==> Printable(lib, v)
    ensures ok ==> buf.data == old(buf.data) + Print(lib, v)
    decreases v, 3
  {
    match v
    case Null =>
      buf.Write("null");
      ok := true;
    case Bool(b) =>
      buf.Write(if b then "true" else "false");
      ok := true;
    case Str(s) =>
      buf.Write(QuotedText(s));
      ok := true;
    case Number(literal) =>
      var text := NumberText(lib, literal);
      if text.None? {
        return false;
      }
      buf.Write(text.value);
      ok := true;
    case Arr(_) =>
      ok := WriteArray(lib, buf, v);
    case Obj(_) =>
      ok := WriteObject(lib, buf, v);
  }

  method WriteArray(lib: FloatLib, buf: Buffer, v: Value) returns (ok: bool)
    requires Lawful(lib) && v.Arr?
    modifies buf
    ensures ok <==> Printable(lib, v)
    ensures ok ==> buf.data == old(buf.data) + Print(lib, v)
    decreases v, 2
  {
    buf.Write("[");
    ok := WriteItems(lib, buf, v);
    if ok {
      ArrayText(lib, v);
    }
  }

  method WriteItems(lib: FloatLib, buf: Buffer, v: Value) returns (ok: bool)
    requires Lawful(lib) && v.Arr?
    modifies buf
    ensures ok <==> Printable(lib, v)
    ensures ok ==> buf.data == old(buf.data) + ItemsLeft(lib, v.items, 0)
    decreases v, 1
  {
    var items := v.items;
    ghost var written := "";
    ghost var printable := Printable(lib, v);
    var i := 0;
    while i < |items|
      invariant 0 <= i <= |items|
      invariant forall j :: 0 <= j < i ==> Printable(lib, items[j])
      invariant buf.data == old(buf.data) + written
      invariant printable ==> ItemsWritten(lib, items, i, written)
    {
      ghost var piece;
      ok, piece := WriteItem(lib, buf, v, i, written);
      if !ok {
        return;
      }
      written := written + piece;
      i := i + 1;
    }
    buf.Write("]");
    ok := true;
  }

  /** One element with its comma. */
  method WriteItem(lib: FloatLib, buf: Buffer, v: Value, i: nat, ghost written: string)
    returns (ok: bool, ghost piece: string)
    requires Lawful(lib) && v.Arr? && i < |v.items|
    requires Printable(lib, v) ==> ItemsWritten(lib, v.items, i, written)
    modifies buf
    ensures ok <==> Printable(lib, v.items[i])
    ensures ok ==> buf.data == old(buf.data) + piece
    ensures ok && Printable(lib, v) ==> ItemsWritten(lib, v.items, i + 1, written + piece)
    decreases v, 0
  {
    var comma := if i > 0 then "," else "";
    ok := WriteAfter(lib, buf, comma, v.items[i]);
    piece := "";
    if ok {
      piece := comma + Print(lib, v.items[i]);
      if Printable(lib, v) {
        WroteItem(lib, v.items, i, written, piece);
      }
    }
  }

  /** Some text, then a value. */
  method WriteAfter(lib: FloatLib, buf: Buffer, prefix: string, x: Value) returns (ok: bool)
    requires Lawful(lib)
    modifies buf
    ensures ok <==> Printable(lib, x)
    ensures ok ==> buf.data == old(buf.data) + (prefix + Print(lib, x))
    decreases x, 4
  {
    buf.Write(prefix);
    ok := WriteValue(lib, buf, x);
    if ok {
      MovesOn(old(buf.data), prefix, Print(lib, x));
    }
  }

  lemma ArrayText(lib: FloatLib, v: Value)
    requires Lawful(lib) && v.Arr? && Printable(lib, v)
    ensures Print(lib, v) == "[" + ItemsLeft(lib, v.items, 0)
  {
    assert v.items[0..] == v.items;
    var items := CanonItems(lib, v.items);
    assert CanonDoc(lib, v) == DArray("", items);
    assert "" + "]" == "]" && (items != [] ==> "" + ItemsText(items) == ItemsText(items));
  }

  lemma ObjectText(lib: FloatLib, v: Value, keys: seq<string>)
    requires Lawful(lib) && v.Obj? && Printable(lib, v) && keys == SortedKeys(v.members.Keys)
    ensures Print(lib, v) == "{" + MembersLeft(lib, v, keys, 0)
  {
    assert keys[0..] == keys;
    var ms := CanonMembers(lib, v, keys);
    assert CanonDoc(lib, v) == DObject("", ms);
    assert "" + "}" == "}" && (ms != [] ==> "" + MembersText(ms) == MembersText(ms));
  }

  method WriteObject(lib: FloatLib, buf: Buffer, v: Value) returns (ok: bool)
    requires Lawful(lib) && v.Obj?
    modifies buf
    ensures ok <==> Printable(lib, v)
    ensures ok ==> buf.data == old(buf.data) + Print(lib, v)
    decreases v, 2
  {
    var keys := CollectKeys(v.members);
    buf.Write("{");
    ok := WriteMembers(lib, buf, v, keys);
    if ok {
      ObjectText(lib, v, keys);
      MovesOn(old(buf.data), "{", MembersLeft(lib, v, keys, 0));
    }
  }

  method WriteMembers(lib: FloatLib, buf: Buffer, v: Value, keys: seq<string>) returns (ok: bool)
    requires Lawful(lib) && v.Obj? && forall k :: k in keys <==> k in v.members
    modifies buf
    ensures ok <==> Printable(lib, v)
    ensures ok ==> buf.data == old(buf.data) + MembersLeft(lib, v, keys, 0)
    decreases v, 1
  {
    ghost var written := "";
    ghost var printable := Printable(lib, v);
    var i := 0;
    while i < |keys|
      invariant 0 <= i <= |keys|
      invariant forall j :: 0 <= j < i ==> Printable(lib, v.members[keys[j]])
      invariant buf.data == old(buf.data) + written
      invariant printable ==> MembersWritten(lib, v, keys, i, written)
    {
      ghost var piece;
      ok, piece := WriteMember(lib, buf, v, keys, i, written);
      if !ok {
        return;
      }
      written := written + piece;
      i := i + 1;
    }
    buf.Write("}");
    ok := true;
    forall k | k in v.members
      ensures Printable(lib, v.members[k])
    {
      var j :| 0 <= j < |keys| && keys[j] == k;
    }
  }

  /** One `"key":value` with its comma. */
  method WriteMember(lib: FloatLib, buf: Buffer, v: Value, keys: seq<string>, i: nat, ghost written: string)
    returns (ok: bool, ghost piece: string)
    requires Lawful(lib) && v.Obj? && i < |keys| && forall k :: k in keys <==> k in v.members
    requires Printable(lib, v) ==> MembersWritten(lib, v, keys, i, written)
    modifies buf
    ensures keys[i] in v.members && (ok <==> Printable(lib, v.members[keys[i]]))
    ensures ok ==> buf.data == old(buf.data) + piece
    ensures ok && Printable(lib, v) ==> MembersWritten(lib, v, keys, i + 1, written + piece)
    decreases v, 0
  {
    var key := keys[i];
    assert key in keys;
    var prefix := (if i > 0 then "," else "") + (QuotedText(key) + ":");
    ok := WriteAfter(lib, buf, prefix, v.members[key]);
    piece := "";
    if ok {
      piece := prefix + Print(lib, v.members[key]);
      if Printable(lib, v) {
        WroteMember(lib, v, keys, i, written, piece);
      }
    }
  }

  /** Write into a new buffer and take its bytes. */
  method Canonical(lib: FloatLib, v: Value) returns (r: Option<string>)
    requires Lawful(lib)
    ensures r == if Printable(lib, v) then Some(Print(lib, v)) else None
  {
    var buf := new Buffer();
    var ok := WriteValue(lib, buf, v);
    if !ok {
      return None;
    }
    assert buf.data == "" + Print(lib, v) == Print(lib, v);
    return Some(buf.data);
  }

  method JCSCanonicalize(lib: FloatLib, text: string) returns (r: Option<string>)
    requires Lawful(lib)
    ensures r == Canonicalize(lib, text)
  {
    var parsed := ReadValue(text, MAX_NESTING);
    if parsed.None? {
      return None;
    }
    r := Canonical(lib, parsed.value.0);
  }
}
