/** The `<meta>` children of a document's head, as an ordered sequence of
    element records, with the few operations the component performs on them:
    create, set an identity attribute, set `content`, append, remove. */
module Dom {
  import opened JsValues

  datatype Option<T> = None | Some(value: T)

  /** A `<meta>` element. `id` stands for the element's identity (the DOM node
      itself); `name` is what `element.name` reads (`""` when the attribute is
      absent); `property` is what `element.getAttribute('property')` reads
      (`None` for `null`); `content` is the value last assigned to
      `element.content`. */
  datatype Meta = Meta(id: nat, name: string, property: Option<string>, content: Value)

  /** The attribute that names a `<meta>` element. */
  datatype Attribute = NameAttr | PropertyAttr

  /** Two records of one element that agree on everything but `content`. */
  predicate SameElement(a: Meta, b: Meta) {
    a.id == b.id && a.name == b.name && a.property == b.property
  }

  /** Open Graph keys are stored in `property`, every other key in `name`:
      `name.substring(0, 3) === 'og:' ? 'property' : 'name'`, where `substring`
      of a shorter string is the whole string. */
  function IdentityAttribute(key: string): (a: Attribute)
    ensures a == PropertyAttr <==> |key| >= 3 && key[..3] == "og:"
  {
    var prefix := if |key| < 3 then key else key[..3];
    if prefix == "og:" then PropertyAttr else NameAttr
  }

  /** `document.createElement('meta')`: no attributes, empty content. */
  function Blank(id: nat): Meta {
    Meta(id, "", None, Str(""))
  }

  /** `element.setAttribute(attribute, value)`. */
  function SetAttribute(m: Meta, attribute: Attribute, value: string): Meta {
    match attribute
    case NameAttr => m.(name := value)
    case PropertyAttr => m.(property := Some(value))
  }

  /** The element the reconciler creates for `key`: a blank element whose
      identity attribute is set to the key and whose content is `v`. An `og:`
      key is stored in `property` and leaves `name` empty; any other key is the
      element's `name` and it has no `property`. */
  function NewMeta(id: nat, key: string, v: Value): (m: Meta)
    ensures m.id == id && m.content == v
    ensures |key| >= 3 && key[..3] == "og:" ==> m.name == "" && m.property == Some(key)
    ensures !(|key| >= 3 && key[..3] == "og:") ==> m.name == key && m.property == None
  {
    SetAttribute(Blank(id), IdentityAttribute(key), key).(content := v)
  }

  /** The identities of the elements of `head`. */
  function Ids(head: seq<Meta>): set<nat> {
    set m | m in head :: m.id
  }

  /** No DOM node occurs twice among a parent's children. */
  predicate IdsDistinct(head: seq<Meta>) {
    forall i, j :: 0 <= i < j < |head| ==> head[i].id != head[j].id
  }

  /** The element of `head` with identity `id`, if it is there. */
  function Find(head: seq<Meta>, id: nat): (r: Option<Meta>)
    ensures r.Some? <==> id in Ids(head)
    ensures r.Some? ==> r.value in head && r.value.id == id
  {
    if head == [] then None
    else if head[0].id == id then Some(head[0])
    else
      assert forall m | m in head[1..] :: m in head;
      assert forall m | m in head && m != head[0] :: m in head[1..];
      Find(head[1..], id)
  }

  /** `head.appendChild(m)` for a new element `m`. */
  function Appended(head: seq<Meta>, m: Meta): (r: seq<Meta>)
    ensures Ids(r) == Ids(head) + {m.id}
    ensures m.id !in Ids(head) && IdsDistinct(head) ==> IdsDistinct(r)
  {
    var r := head + [m];
    assert forall x | x in r :: x in head || x == m;
    r
  }

  /** `head.removeChild(element)` for the element with identity `id`: the
      children without it. */
  function Detached(head: seq<Meta>, id: nat): (r: seq<Meta>)
    ensures |r| <= |head|
    ensures forall m | m in r :: m in head && m.id != id
    ensures forall m | m in head && m.id != id :: m in r
    ensures Ids(r) == Ids(head) - {id}
  {
    if head == [] then []
    else
      var rest := Detached(head[1..], id);
      assert forall m | m in head && m != head[0] :: m in head[1..];
      if head[0].id == id then rest else [head[0]] + rest
  }

  /** `element.content = v` on the element with identity `id`. */
  function WithContent(head: seq<Meta>, id: nat, v: Value): (r: seq<Meta>)
    ensures |r| == |head|
    ensures forall i :: 0 <= i < |head| ==> SameElement(r[i], head[i])
    ensures forall i :: 0 <= i < |head| && head[i].id != id ==> r[i] == head[i]
    ensures forall i :: 0 <= i < |head| && head[i].id == id ==> r[i].content == v
  {
    seq(|head|, i requires 0 <= i < |head| => if head[i].id == id then head[i].(content := v) else head[i])
  }

  lemma WithContentIds(head: seq<Meta>, id: nat, v: Value)
    ensures Ids(WithContent(head, id, v)) == Ids(head)
    ensures IdsDistinct(head) ==> IdsDistinct(WithContent(head, id, v))
  {
    var r := WithContent(head, id, v);
    forall x | x in Ids(r) ensures x in Ids(head) {
      var i :| 0 <= i < |r| && r[i].id == x;
      assert head[i] in head;
    }
    forall x | x in Ids(head) ensures x in Ids(r) {
      var i :| 0 <= i < |head| && head[i].id == x;
      assert r[i] in r;
    }
  }

  lemma TailDistinct(head: seq<Meta>)
    requires IdsDistinct(head) && head != []
    ensures IdsDistinct(head[1..])
    ensures head[0].id !in Ids(head[1..])
  {
    var tail := head[1..];
    forall a, b | 0 <= a < b < |tail| ensures tail[a].id != tail[b].id {
      assert tail[a] == head[a + 1] && tail[b] == head[b + 1];
    }
    forall m | m in tail ensures m.id != head[0].id {
      var j :| 0 <= j < |tail| && tail[j] == m;
      assert head[j + 1] == m;
    }
  }

  lemma SpliceTail(head: seq<Meta>, i: nat)
    requires 0 < i < |head|
    ensures [head[0]] + (head[1..][..i - 1] + head[1..][i..]) == head[..i] + head[i + 1..]
  {
    assert head[1..][..i - 1] == head[1..i] && head[1..][i..] == head[i + 1..];
    assert [head[0]] + head[1..i] == head[..i];
  }

  /** Removing the element with identity `id` from children that hold it once
      removes exactly that child and keeps the others in order. */
  lemma {:induction false} DetachedAt(head: seq<Meta>, i: nat)
    requires IdsDistinct(head) && i < |head|
    ensures Detached(head, head[i].id) == head[..i] + head[i + 1..]
  {
    var id := head[i].id;
    TailDistinct(head);
    if i == 0 {
      DetachedAbsent(head[1..], id);
      assert head[..0] + head[1..] == head[1..];
    } else {
      assert head[0].id != id;
      assert head[1..][i - 1] == head[i];
      DetachedAt(head[1..], i - 1);
      SpliceTail(head, i);
    }
  }

  /** Removing an element that is not among the children changes nothing. */
  lemma {:induction false} DetachedAbsent(head: seq<Meta>, id: nat)
    requires id !in Ids(head)
    ensures Detached(head, id) == head
  {
    if head != [] {
      assert head[0] in head;
      assert Ids(head[1..]) <= Ids(head) by {
        forall m | m in head[1..] ensures m in head { }
      }
      DetachedAbsent(head[1..], id);
      assert head == [head[0]] + head[1..];
    }
  }

  /** Children without repeated identities keep that property after a removal. */
  lemma {:induction false} DetachedDistinct(head: seq<Meta>, id: nat)
    requires IdsDistinct(head)
    ensures IdsDistinct(Detached(head, id))
  {
    if id in Ids(head) {
      var i :| 0 <= i < |head| && head[i].id == id;
      DetachedAt(head, i);
    } else {
      DetachedAbsent(head, id);
    }
  }

  /** Looking an element up after an append. */
  lemma {:induction false} FindAppended(head: seq<Meta>, m: Meta, x: nat)
    ensures Find(head + [m], x) == if x in Ids(head) then Find(head, x) else if m.id == x then Some(m) else None
  {
    if head == [] {
      assert [] + [m] == [m];
    } else {
      assert (head + [m])[1..] == head[1..] + [m];
      assert head[0] in head;
      if head[0].id != x {
        assert x in Ids(head) <==> x in Ids(head[1..]) by {
          assert forall e | e in head[1..] :: e in head;
          assert forall e | e in head && e != head[0] :: e in head[1..];
        }
        FindAppended(head[1..], m, x);
      }
    }
  }

  /** Looking up any other element after a removal. */
  lemma {:induction false} FindDetached(head: seq<Meta>, id: nat, x: nat)
    requires x != id
    ensures Find(Detached(head, id), x) == Find(head, x)
  {
    if head != [] {
      FindDetached(head[1..], id, x);
      if head[0].id != id {
        assert Detached(head, id) == [head[0]] + Detached(head[1..], id);
        assert ([head[0]] + Detached(head[1..], id))[1..] == Detached(head[1..], id);
      }
    }
  }

  /** Looking an element up after a content update. */
  lemma {:induction false} FindWithContent(head: seq<Meta>, id: nat, v: Value, x: nat)
    ensures Find(WithContent(head, id, v), x) ==
      if x == id && Find(head, x).Some? then Some(Find(head, x).value.(content := v)) else Find(head, x)
  {
    if head != [] {
      assert WithContent(head, id, v)[1..] == WithContent(head[1..], id, v);
      FindWithContent(head[1..], id, v, x);
    }
  }

  /** Setting the content an element already holds changes nothing. */
  lemma WithContentNoop(head: seq<Meta>, id: nat, v: Value)
    requires IdsDistinct(head)
    requires Find(head, id).Some? && Find(head, id).value.content == v
    ensures WithContent(head, id, v) == head
  {
    var r := WithContent(head, id, v);
    forall i | 0 <= i < |head| ensures r[i] == head[i] {
      if head[i].id == id {
        var m := Find(head, id).value;
        var j :| 0 <= j < |head| && head[j] == m;
        assert i == j;
      }
    }
  }
}
