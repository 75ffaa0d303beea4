# sherby-metadata, modelled in Dafny

`sherby-metadata` is a web component that keeps the `<meta>` tags of a page's
`<head>` and the document title in step with a JavaScript object of metadata
(`title`, `description`, `keywords`, Open Graph `og:*` keys). This project
models its core: the registry that adopts the `<meta>` elements already in the
page, the reconciliation pass that runs whenever `data` changes, and the guard
on `sherby-metadata` events. It proves what the pass does for each key and
what a whole pass does to the page.

Files and modules:

- `js_values.dfy`, module `JsValues`: JavaScript values, truthiness, `typeof`,
  `.constructor` read as an abstract `Ctor`, and the keys a `for...in` loop
  visits (`ForIn`: an object's enumerable properties with an own/inherited
  flag, a string's indices, nothing for other primitives).
- `dom.dfy`, module `Dom`: a `<meta>` element as a record `Meta(id, name,
  property, content)`. `id` stands for the node's identity. The head's `<meta>`
  children are a sequence. The module defines the Open Graph attribute rule
  (`IdentityAttribute`) and the operations `createElement`, `setAttribute`,
  `appendChild`, `removeChild` and the `content` assignment.
- `registry.dfy`, module `Registry`: the seed key of an existing element
  (`name`, else `property`), and seeding (`Seed`), where the last element wins.
- `reconciler.dfy`, module `Reconciler`: the page state `State(head, registry,
  title, nextId)` and one loop iteration `Step`. `Reconcile` is the whole pass,
  a fold of `Step` over the visited properties. The module holds the lemmas
  about both.
- `sherby_metadata.dfy`, module `SherbyMetadataElement`: the classes. `Document`
  holds the head, the title and an identity allocator. `MetadataEvent` holds
  the payload and a propagation flag. `SherbyMetadata` holds `data`, the
  registry `metaElements` and a reference to the document. Its methods are
  the constructor, `InitializeMetaElements` (a loop), `Updated` (the
  reconcile loop) and `OnMetadataEvent`. Each loop is proved equal to the
  pure function (`Seed`, `Reconcile`) that the lemmas are about.
- `scenarios.dfy`, module `Scenarios`: the behaviours that the test suite
  checks, written as lemmas about concrete pages.

Three behaviours of the code; the model keeps the first two as they are:

- Seeding: when two existing elements carry the same key, the later one in
  document order overwrites the earlier one, so the last is tracked. `Seed`
  does the same.
- Reading existing elements: seeding reads `name`, else the `property`
  attribute, whatever the key's prefix; the `og:` rule is used only when an
  element is created. `SeedKey` does the same.
- Where seeding scans: `document.querySelectorAll('meta')` visits every
  `<meta>` of the document, not only the head's. The model seeds from the
  head; see "## Left out" and "## Findings".

## Model

| member | source | states |
|---|---|---|
| JsValues.Truthy | sherby-metadata.js:127-142 | the values the pass treats as "clear" are exactly `undefined`, `null`, `false`, `0`, `NaN` and `""`; every other value, every object included, is truthy |
| JsValues.ForIn | sherby-metadata.js:112 | `for...in` over an object visits its enumerable properties; over a string, one own key per index; over any other primitive, `null` or `undefined`, nothing |
| JsValues.ForInString | sherby-metadata.js:112-116 | a string as `data` is enumerated as distinct own index keys, each with a truthy one-character value |
| JsValues.DecimalInjective | sherby-metadata.js:112 | distinct indices enumerate as distinct keys |
| Dom.IdentityAttribute | sherby-metadata.js:148 | the identity attribute is `property` exactly when the first three characters of the key are `og:` (shorter keys use `name`) |
| Dom.NewMeta | sherby-metadata.js:145-154 | `Blank` (`document.createElement('meta')`) followed by `SetAttribute` (`setAttribute(attribute, name)`) and the content assignment: a created element has the fresh identity and the value as content; an `og:` key goes into `property` with `name` empty, any other key into `name` with no `property` |
| Dom.Appended | sherby-metadata.js:157 | appending adds exactly the new identity and keeps identities distinct |
| Dom.Detached | sherby-metadata.js:131 | removal keeps every other element, drops every element with that identity, and never adds one |
| Dom.DetachedAt | sherby-metadata.js:131 | removing a child that occurs once removes exactly that child and keeps the others in order |
| Dom.WithContent | sherby-metadata.js:128 | a content update changes only the content of the element with that identity; identity, `name`, `property` and position of every element are kept |
| Dom.WithContentNoop | sherby-metadata.js:127-128 | writing the content an element already has changes nothing |
| Registry.SeedKey | sherby-metadata.js:173-176 | an element is adopted under its non-empty `name`, else its non-empty `property`; never under `""` |
| Registry.Seed | sherby-metadata.js:168-186 | seeding never tracks the empty key and tracks at most one key per scanned element |
| Registry.SeedTracksScanned | sherby-metadata.js:168-186 | seeding tracks only elements it scanned, and no element under two keys |
| Registry.SeedKeys | sherby-metadata.js:171-182 | a key is tracked after seeding iff some scanned element carries it |
| Registry.SeedLastWins | sherby-metadata.js:176-182 | for duplicate keys the later element in document order is the one tracked |
| Registry.SeedReadsBackNewMeta | sherby-metadata.js:148-151 | an element the pass creates is adopted by a later seeding under the key it was created for (unless the key is empty) |
| Registry.SeedDocument | sherby-metadata.js:169 | as written, the document-wide scan keeps every key of the head tracked, but an element outside the head overrides a head element with the same key |
| Registry.SeedDocumentTracksOutsideHead | sherby-metadata.js:169 | as written, seeding tracks a `<meta>` outside the head (see Findings) |
| Reconciler.Step | sherby-metadata.js:111-161 | one iteration allocates at most one element and adds at most one to the head; it writes the title (`TitleOf`: the value or `""`) only for an own `title` key; afterwards a visited own key is tracked exactly when its value is truthy |
| Reconciler.Reconcile | sherby-metadata.js:109-161 | a pass allocates, and grows the head by, at most one element per visited property |
| Reconciler.OwnProps | sherby-metadata.js:112-116 | keeps exactly the own properties |
| Reconciler.StepSkipsInherited | sherby-metadata.js:113-116 | an inherited key changes nothing |
| Reconciler.StepTitle | sherby-metadata.js:119-122 | the `title` key sets the document title to `TitleOf` its value (the value when truthy, `""` otherwise) and changes no element, registry entry or allocation |
| Reconciler.StepUpdates | sherby-metadata.js:125-128 | a tracked key with a truthy value gives the same tracked element the new content; head length, identities, registry and title unchanged |
| Reconciler.StepRemoves | sherby-metadata.js:129-133 | a tracked key with a falsy value removes exactly its element from the head, keeping the others in order, and removes just that key from the registry |
| Reconciler.StepIgnoresFalsy | sherby-metadata.js:138-142 | an untracked key with a falsy value changes nothing: head, registry and title |
| Reconciler.StepCreates | sherby-metadata.js:144-160 | an untracked key with a truthy value appends one new element at the end of the head, tracked under the key, with `property`/`name` set by the `og:` rule and the value as content |
| Reconciler.StepOtherKeys | sherby-metadata.js:111-161 | an iteration leaves every other key's registry entry and tracked element exactly as they were |
| Reconciler.StepReflects | sherby-metadata.js:118-160 | after an iteration the page shows what its property asked for |
| Reconciler.StepEvolves | sherby-metadata.js:109-161 | an iteration keeps the invariant (one element per identity, tracked elements in the head, no element tracked twice) and only evolves the page |
| Reconciler.ReconcileEvolves | sherby-metadata.js:109-161 | a pass keeps the invariant; every element in the head afterwards is new or an earlier element with unchanged identity attributes; untracked elements are never touched |
| Reconciler.ReconcileOwnKeysOnly | sherby-metadata.js:112-116 | a pass equals the pass over the own properties alone: inherited keys never create, update or remove |
| Reconciler.ReconcileLeavesOtherKeys | sherby-metadata.js:111-161 | keys absent from the record, inherited keys and the `title` key keep their tracked element; the title changes only through an own `title` key |
| Reconciler.ReconcileReflects | sherby-metadata.js:109-161 | after a pass, each truthy own key has a tracked element with that content, each falsy own key has none, and the title is that of the `title` value |
| Reconciler.ReconcileReflected | sherby-metadata.js:109-161 | a pass over properties the page already shows changes nothing |
| Reconciler.ReconcileIdempotent | sherby-metadata.js:109-161 | reconciling the same record twice leaves the page as the first pass did |
| Reconciler.ReconcileKeepsTrackedElement | sherby-metadata.js:125-128 | an adopted or earlier-created element stays the one tracked for its key: updated in place, never replaced |
| Reconciler.StepAsWritten | sherby-metadata.js:125-160 | as written, with a plain-object registry, `__proto__` is never tracked, and every own truthy `__proto__` property appends and allocates a new element |
| Reconciler.ProtoKeyDuplicates | sherby-metadata.js:125-160 | as written, two passes over `{"__proto__": "x"}` leave two such elements and track neither (see Findings) |
| Reconciler.ProtoKeyTrackedOnce | sherby-metadata.js:125-160 | with a true key table, the same passes leave one tracked element |
| SherbyMetadataElement.Admits | sherby-metadata.js:195 | the guard, built on `Truthy` and `TypeOf` (`typeof`), admits exactly objects whose constructor is `Object` |
| SherbyMetadataElement.SherbyMetadata.constructor | sherby-metadata.js:64-76 | data starts as `{}` and the registry is seeded from the page, which is left unchanged |
| SherbyMetadataElement.SherbyMetadata.InitializeMetaElements | sherby-metadata.js:168-186 | the loop builds exactly `Seed` of the head's elements and changes only the registry |
| SherbyMetadataElement.SherbyMetadata.Updated | sherby-metadata.js:101-161 | the loop leaves page and registry exactly as `Reconcile` over `for...in` of `data` says, and keeps the invariant |
| SherbyMetadataElement.SherbyMetadata.OnMetadataEvent | sherby-metadata.js:193-201 | `data` becomes the payload iff the guard admits it, else stays; propagation is stopped in every case |
| Scenarios.ExampleCreates | test/sherby-metadata.test.js:99-164 | from an empty head, a record with a title, a plain key and an `og:` key sets the title and creates a `name` element and a `property` element |
| Scenarios.ExampleRemoves | sherby-metadata.js:129-133 | clearing `description` afterwards removes only its element and keeps the title |
| Scenarios.InheritedKeyIgnored | test/sherby-metadata.test.js:168-197 | an inherited `description` creates nothing while an own `superdata` is created |
| Scenarios.FalsyValuesCreateNothing | test/sherby-metadata.test.js:199-224 | falsy values for untracked keys leave the page unchanged |
| Scenarios.TestHeadSeeded | test/sherby-metadata.test.js:32-84 | of the three elements that the tests start from, the `property` one and the `name` one are adopted and the third is not |
| Scenarios.ExistingElementUpdatedInPlace | test/sherby-metadata.test.js:227-262 | an existing `name` element, and likewise an existing `property` (`og:`) element, gets the new content in place; the head keeps three elements |
| Scenarios.ExistingElementRemoved | test/sherby-metadata.test.js:265-311 | a falsy value removes the existing `name` element, or the existing `property` (`og:`) element, and only it |
| Scenarios.EventPayloads | test/sherby-metadata.test.js:319-352 | `{}` and plain records are admitted; strings, numbers, `Infinity`, `NaN`, arrays, `globalThis`, `Date`, `RegExp`, `null` and `undefined` are not |

## Left out

- Listener wiring. `connectedCallback` and `disconnectedCallback` (sherby-metadata.js:82-94), the `changedProperties.has('data')` gate (105-107) and `customElements.define` (204) belong to the framework. `Updated` is the pass run once `data` has changed. Assigning `data` and LitElement's scheduling of `updated` are not modelled.
- The DOM itself. The head is the sequence of its `<meta>` children; its other children are not modelled. `createElement`, `setAttribute`, `appendChild`, `removeChild` and the `content` assignment are the functions of module `Dom` (`Blank`, `SetAttribute`, `Appended`, `Detached`, `WithContent`). `document.querySelectorAll('meta')` is not a function of the model: the component's scan is the read of `document.head` in `InitializeMetaElements`, and the document-wide scan is `Registry.SeedDocument`.
- String coercion. The browser turns a value into a string when it is assigned to `content` or `document.title`. The model stores the `Value` itself.
- Event dispatch and bubbling. `stopPropagation` is a flag on the event record.
- Prototype and constructor reflection. `.constructor` is an abstract `Ctor` value. The prototype chain appears only as the own/inherited flag of each enumerated property.
- Enumeration order. `for...in` order is whatever order the `Prop` sequence has. Results depend on it only through the order in which new elements are appended.
- Some value kinds. Functions, symbols and `BigInt` are not in `Value`. String indices count Unicode scalar values, not UTF-16 code units.
- Dom.Detached: for an identity that is not a child of the head it returns the head unchanged, where `document.head.removeChild` (sherby-metadata.js:131) throws `NotFoundError`. The model never reaches that case: `Reconciler.Valid` keeps every registry value among the head's identities, and `Reconciler.StepRemoves` shows the head shrinks by exactly one.
- Registry.Seed, SherbyMetadata.InitializeMetaElements, SherbyMetadata.Updated and Reconciler.Step: treat the registry as a true key table. The code keeps it in a plain object, where the key `__proto__` is never recorded (sherby-metadata.js:70, 160, 177). Seeding a `<meta name="__proto__">` therefore tracks it in the model but not in the code, and `Registry.SeedKeys` does not hold for that key as written. In a pass, each own `__proto__` property with a truthy value appends another untracked element. That as-written behaviour is `Reconciler.StepAsWritten`; see "## Findings".
- SherbyMetadata.constructor and SherbyMetadata.InitializeMetaElements: scan `document.head`, not the whole document. This is the corrected behaviour; the as-written scan is `Registry.SeedDocument`.

## Findings

| source | as written | input that shows it | evidently intended | confidence | as-written member | corrected member |
|---|---|---|---|---|---|---|
| sherby-metadata.js:169 | `document.querySelectorAll('meta')` adopts every `<meta>` of the document, but removal is `document.head.removeChild` (line 131) | a `<meta name="description">` in the body and none in the head, then `data = {description: ""}`: the registry tracks the body element, so `removeChild` throws `NotFoundError` and the rest of the pass is skipped. The as-written member stops at the broken invariant (a tracked identity that is not in the head); the throw itself is not modelled | adopt only the head's `<meta>` elements, so that every tracked element can be removed from the head | medium; not executed | Registry.SeedDocumentTracksOutsideHead | Registry.SeedTracksScanned |
| sherby-metadata.js:70, 160, 177 | the registry is a plain object, and `obj["__proto__"] = meta` replaces its prototype instead of adding a key, so `hasOwnProperty` (line 125) never finds `__proto__` | `data = JSON.parse('{"__proto__": "x"}')` reconciled twice: two `<meta name="__proto__">` elements, neither tracked, and a falsy value never removes them | one tracked element per key for every key (a `Map` or `Object.create(null)`) | medium; not executed | Reconciler.ProtoKeyDuplicates | Reconciler.ReconcileIdempotent |
