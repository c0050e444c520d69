/** The property catalogue page: three lists of names (sizes, tags,
    colours) that the user extends, renames and prunes. Every change is
    applied to the page's copy first and sent to the server; a refused or
    failed request undoes the change. */
module AddPropertiesPage {
  import opened Text
  import opened Lists

  /** The three keys of the `properties` object. */
  datatype Category = Sizes | Tags | Colors

  /** The key as the page writes it in its messages. */
  function Key(c: Category): string
  {
    match c
    case Sizes => "sizes"
    case Tags => "tags"
    case Colors => "colors"
  }

  /** The `properties` state: one list of names per category. */
  datatype Properties = Properties(sizes: seq<string>, tags: seq<string>, colors: seq<string>)
  {
    /** `properties[c]`. */
    function Get(c: Category): seq<string>
    {
      match c
      case Sizes => sizes
      case Tags => tags
      case Colors => colors
    }

    /** `{ ...properties, [c]: s }`: only the list of `c` is replaced. */
    function With(c: Category, s: seq<string>): (p: Properties)
      ensures p.Get(c) == s
      ensures forall d :: d != c ==> p.Get(d) == Get(d)
    {
      match c
      case Sizes => this.(sizes := s)
      case Tags => this.(tags := s)
      case Colors => this.(colors := s)
    }
  }

  const NoProperties := Properties([], [], [])

  /** The body of a successful fetch: each list may be missing. */
  datatype Fetched = Fetched(sizes: Option<seq<string>>, tags: Option<seq<string>>, colors: Option<seq<string>>)

  /** `response.data.sizes || []`, and so on. */
  function OrEmpty(s: Option<seq<string>>): (r: seq<string>)
    ensures s.Some? ==> r == s.value
    ensures s.None? ==> r == []
  {
    if s.Some? then s.value else []
  }

  /** How an update request ended: accepted, refused with a message, or
      thrown. */
  datatype Response = Accepted | Refused(message: string) | Threw

  const EmptyNameMessage := "Property name cannot be empty."
  const UnexpectedErrorMessage := "An unexpected error occurred."

  /** `"${trimmed}" already exists in ${category}.` */
  function DuplicateMessage(name: string, c: Category): string
  {
    "\"" + name + "\" already exists in " + Key(c) + "."
  }

  /** The alert a request's end raises: none on success, the server's
      message when it refused, a fixed text when the call threw. */
  function FailureAlert(r: Response): (alert: Option<string>)
    ensures alert.None? <==> r.Accepted?
  {
    match r
    case Accepted => None
    case Refused(m) => Some(m)
    case Threw => Some(UnexpectedErrorMessage)
  }

  /** `s.some(item => item.toLowerCase() === name.toLowerCase())`. */
  predicate HasIgnoringCase(s: seq<string>, name: string)
  {
    exists k :: 0 <= k < |s| && EqualsIgnoringCase(s[k], name)
  }

  /** No two names of a list differ only in letter case. */
  predicate UniqueIgnoringCase(s: seq<string>)
  {
    forall i, j :: 0 <= i < j < |s| ==> !EqualsIgnoringCase(s[i], s[j])
  }

  /** Every list of the catalogue is unique ignoring case. */
  predicate AllUnique(p: Properties)
  {
    UniqueIgnoringCase(p.Get(Sizes)) && UniqueIgnoringCase(p.Get(Tags)) && UniqueIgnoringCase(p.Get(Colors))
  }

  /** Replacing one list by a list unique ignoring case keeps the whole
      catalogue unique. */
  lemma WithKeepsAllUnique(p: Properties, c: Category, s: seq<string>)
    requires AllUnique(p) && UniqueIgnoringCase(s)
    ensures AllUnique(p.With(c, s))
  {
    var q := p.With(c, s);
    assert q.Get(Sizes) == (if c == Sizes then s else p.Get(Sizes));
    assert q.Get(Tags) == (if c == Tags then s else p.Get(Tags));
    assert q.Get(Colors) == (if c == Colors then s else p.Get(Colors));
  }

  /** A list unique ignoring case holds no name twice. */
  lemma UniqueHasNoDuplicates(s: seq<string>)
    requires UniqueIgnoringCase(s)
    ensures NoDuplicates(s)
  {
    forall i, j | 0 <= i < j < |s| ensures s[i] != s[j] {
      assert !EqualsIgnoringCase(s[i], s[j]);
    }
  }

  /** In a list unique ignoring case, the names at two different positions
      differ even ignoring case. */
  lemma DistinctPositions(s: seq<string>, a: nat, b: nat)
    requires UniqueIgnoringCase(s)
    requires a < |s| && b < |s| && a != b
    ensures !EqualsIgnoringCase(s[a], s[b])
  {
    if a < b {
      assert !EqualsIgnoringCase(s[a], s[b]);
    } else {
      assert !EqualsIgnoringCase(s[b], s[a]);
    }
  }

  /** A name no entry matches ignoring case is not in the list. */
  lemma NoMatchIsAbsent(s: seq<string>, name: string)
    requires !HasIgnoringCase(s, name)
    ensures name !in s
  {
    forall k | 0 <= k < |s| ensures s[k] != name {
      assert !EqualsIgnoringCase(s[k], name);
    }
  }

  /** Appending a name no entry matches ignoring case keeps the list
      unique. */
  lemma AppendNewName(s: seq<string>, name: string)
    requires UniqueIgnoringCase(s) && !HasIgnoringCase(s, name)
    ensures UniqueIgnoringCase(s + [name])
  {
    var r := s + [name];
    forall i, j | 0 <= i < j < |r| ensures !EqualsIgnoringCase(r[i], r[j]) {
      if j == |s| {
        assert r[i] == s[i];
      } else {
        assert r[i] == s[i] && r[j] == s[j];
      }
    }
  }

  /** Deleting every copy of a name keeps the list unique; putting the name
      back at the end keeps it unique and restores every name exactly as
      often as before (only the order may change). */
  lemma DeleteAndRestore(s: seq<string>, value: string)
    requires UniqueIgnoringCase(s)
    ensures UniqueIgnoringCase(RemoveAll(s, value))
    ensures value in s ==> UniqueIgnoringCase(RemoveAll(s, value) + [value])
    ensures value in s ==> multiset(RemoveAll(s, value) + [value]) == multiset(s)
  {
    RemoveAllKeepsUnique(s, value);
    if value in s {
      RestoreKeepsUnique(s, value);
      var r := RemoveAll(s, value);
      RemoveAllMultiset(s, value);
      UniqueHasNoDuplicates(s);
      NoDuplicatesMultiplicity(s, value);
      assert multiset(r + [value]) == multiset(r) + multiset{value};
    }
  }

  /** Deleting every copy of a name keeps a unique list unique. */
  lemma RemoveAllKeepsUnique(s: seq<string>, value: string)
    requires UniqueIgnoringCase(s)
    ensures UniqueIgnoringCase(RemoveAll(s, value))
  {
    var r := RemoveAll(s, value);
    UniqueHasNoDuplicates(s);
    SubsequenceNoDuplicates(r, s);
    forall i, j | 0 <= i < j < |r| ensures !EqualsIgnoringCase(r[i], r[j]) {
      var a :| 0 <= a < |s| && s[a] == r[i];
      var b :| 0 <= b < |s| && s[b] == r[j];
      assert r[i] != r[j];
      DistinctPositions(s, a, b);
    }
  }

  /** Putting a deleted name back at the end keeps the list unique. */
  lemma RestoreKeepsUnique(s: seq<string>, value: string)
    requires UniqueIgnoringCase(s) && value in s
    ensures UniqueIgnoringCase(RemoveAll(s, value) + [value])
  {
    var r := RemoveAll(s, value);
    RemoveAllKeepsUnique(s, value);
    var v :| 0 <= v < |s| && s[v] == value;
    var r' := r + [value];
    forall i, j | 0 <= i < j < |r'| ensures !EqualsIgnoringCase(r'[i], r'[j]) {
      if j == |r| {
        var a :| 0 <= a < |s| && s[a] == r[i];
        assert r'[i] == r[i] != value;
        DistinctPositions(s, a, v);
      } else {
        assert r'[i] == r[i] && r'[j] == r[j];
      }
    }
  }


  /** `s.map(item => item === from ? to : item)`. */
  function Replace(s: seq<string>, from: string, to: string): (r: seq<string>)
    ensures |r| == |s|
    ensures forall k :: 0 <= k < |s| ==> r[k] == (if s[k] == from then to else s[k])
  {
    seq(|s|, k requires 0 <= k < |s| => if s[k] == from then to else s[k])
  }

  /** The rename check: the new name only changes the letter case of the
      old one, or no entry matches it ignoring case. */
  predicate RenameAllowed(s: seq<string>, from: string, to: string)
  {
    EqualsIgnoringCase(to, from) || !HasIgnoringCase(s, to)
  }

  /** A rename the check allows keeps the list unique; the old name is
      gone from it and the new one is in it. */
  lemma RenameKeepsUnique(s: seq<string>, from: string, to: string)
    requires UniqueIgnoringCase(s) && RenameAllowed(s, from, to)
    ensures UniqueIgnoringCase(Replace(s, from, to))
    ensures from in s ==> to in Replace(s, from, to)
    ensures from != to ==> from !in Replace(s, from, to)
  {
    var r := Replace(s, from, to);
    forall i, j | 0 <= i < j < |r| ensures !EqualsIgnoringCase(r[i], r[j]) {
      assert !EqualsIgnoringCase(s[i], s[j]);
      if s[i] == from && s[j] != from {
        assert !EqualsIgnoringCase(s[j], to);
      } else if s[i] != from && s[j] == from {
        assert !EqualsIgnoringCase(s[i], to);
      }
    }
    if from in s {
      var k :| 0 <= k < |s| && s[k] == from;
      assert r[k] == to;
    }
  }

  /** A rename the check allows, of a name the list holds, is undone by
      mapping the new name back to the old one. */
  lemma RenameThenRevert(s: seq<string>, from: string, to: string)
    requires UniqueIgnoringCase(s) && from in s && RenameAllowed(s, from, to)
    ensures Replace(Replace(s, from, to), to, from) == s
  {
    var a :| 0 <= a < |s| && s[a] == from;
    var back := Replace(Replace(s, from, to), to, from);
    forall k | 0 <= k < |s| ensures back[k] == s[k] {
      if s[k] != from {
        if EqualsIgnoringCase(to, from) {
          DistinctPositions(s, k, a);
        }
        assert !EqualsIgnoringCase(s[k], to);
      }
    }
  }

  /** The undo of a rename the check allows keeps a unique list unique,
      also when the old name was not in it. */
  lemma RevertKeepsUnique(s: seq<string>, from: string, to: string)
    requires UniqueIgnoringCase(s) && RenameAllowed(s, from, to)
    ensures UniqueIgnoringCase(Replace(Replace(s, from, to), to, from))
  {
    if from in s {
      RenameThenRevert(s, from, to);
    } else {
      assert Replace(s, from, to) == s;
      if EqualsIgnoringCase(to, from) {
        RenameKeepsUnique(s, to, from);
      } else {
        NoMatchIsAbsent(s, to);
        assert Replace(s, to, from) == s;
      }
    }
  }

  /** What a handler with a check does: it refuses with an alert and
      changes nothing, or it applies its change and settles with the
      request's alert. */
  datatype Outcome = Rejected(message: string) | Applied(properties: Properties, alert: Option<string>)

  /** `handleAddProperty` on the lists `p` with the input `text`: a blank
      name or one the list holds ignoring case is refused; otherwise the
      trimmed name is appended, and removed again unless the request
      succeeds. */
  function AddOutcome(p: Properties, c: Category, text: string, response: Response): (o: Outcome)
    ensures Trim(text) == "" ==> o == Rejected(EmptyNameMessage)
    ensures Trim(text) != "" && HasIgnoringCase(p.Get(c), Trim(text)) ==> o == Rejected(DuplicateMessage(Trim(text), c))
    ensures o.Applied? <==> Trim(text) != "" && !HasIgnoringCase(p.Get(c), Trim(text))
    ensures o.Applied? ==> o.alert == FailureAlert(response)
    ensures o.Applied? && response.Accepted? ==> o.properties == p.With(c, p.Get(c) + [Trim(text)])
  {
    var name := Trim(text);
    if name == "" then Rejected(EmptyNameMessage)
    else if HasIgnoringCase(p.Get(c), name) then Rejected(DuplicateMessage(name, c))
    else
      var added := p.With(c, p.Get(c) + [name]);
      var settled := if response.Accepted? then added else added.With(c, RemoveAll(added.Get(c), name));
      Applied(settled, FailureAlert(response))
  }

  /** An add the server does not accept leaves the lists exactly as they
      were. */
  lemma AddUndoneOnFailure(p: Properties, c: Category, text: string, response: Response)
    requires AddOutcome(p, c, text, response).Applied? && !response.Accepted?
    ensures AddOutcome(p, c, text, response).properties == p
  {
    var name := Trim(text);
    var s := p.Get(c);
    NoMatchIsAbsent(s, name);
    RemoveAllAfterAppend(s, name);
    var q := AddOutcome(p, c, text, response).properties;
    assert q.Get(c) == s;
    assert q.Get(Sizes) == p.Get(Sizes) && q.Get(Tags) == p.Get(Tags) && q.Get(Colors) == p.Get(Colors);
  }

  /** Adding keeps every list unique ignoring case. */
  lemma AddKeepsUnique(p: Properties, c: Category, text: string, response: Response)
    requires AllUnique(p) && AddOutcome(p, c, text, response).Applied?
    ensures AllUnique(AddOutcome(p, c, text, response).properties)
  {
    if response.Accepted? {
      AppendNewName(p.Get(c), Trim(text));
      WithKeepsAllUnique(p, c, p.Get(c) + [Trim(text)]);
    } else {
      AddUndoneOnFailure(p, c, text, response);
    }
  }

  /** `handleDeleteProperty` once confirmed: every copy of the name is
      removed, and appended again unless the request succeeds. */
  function DeleteOutcome(p: Properties, c: Category, value: string, response: Response): (q: Properties)
    ensures value !in q.Get(c) <==> response.Accepted?
    ensures q.Get(c) == RemoveAll(p.Get(c), value) + (if response.Accepted? then [] else [value])
    ensures forall d :: d != c ==> q.Get(d) == p.Get(d)
  {
    var removed := p.With(c, RemoveAll(p.Get(c), value));
    if response.Accepted? then removed
    else removed.With(c, removed.Get(c) + [value])
  }

  /** Deleting a name the list holds keeps every list unique, and when the
      server does not accept it the list holds the same names as before,
      the restored name moved to the end. */
  lemma DeleteKeepsUnique(p: Properties, c: Category, value: string, response: Response)
    requires AllUnique(p) && value in p.Get(c)
    ensures AllUnique(DeleteOutcome(p, c, value, response))
    ensures !response.Accepted? ==> multiset(DeleteOutcome(p, c, value, response).Get(c)) == multiset(p.Get(c))
  {
    DeleteAndRestore(p.Get(c), value);
    var q := DeleteOutcome(p, c, value, response);
    WithKeepsAllUnique(p, c, q.Get(c));
    assert q == p.With(c, q.Get(c));
  }

  /** `handleSaveEdit` on the lists `p` and the draft `d`: a blank name, or
      one that matches an entry ignoring case without being a change of
      letter case of the old name, is refused; otherwise every copy of the
      old name becomes the trimmed new one, and is mapped back unless the
      request succeeds. */
  function RenameOutcome(p: Properties, d: EditDraft, response: Response): (o: Outcome)
    requires d.category.Some?
    ensures Trim(d.newValue) == "" ==> o == Rejected(EmptyNameMessage)
    ensures o.Applied? <==> Trim(d.newValue) != "" && RenameAllowed(p.Get(d.category.value), d.oldValue, Trim(d.newValue))
    ensures Trim(d.newValue) != "" && o.Rejected? ==> o == Rejected(DuplicateMessage(Trim(d.newValue), d.category.value))
    ensures o.Applied? ==> o.alert == FailureAlert(response)
    ensures o.Applied? && response.Accepted? ==>
      o.properties == p.With(d.category.value, Replace(p.Get(d.category.value), d.oldValue, Trim(d.newValue)))
  {
    var c, name := d.category.value, Trim(d.newValue);
    if name == "" then Rejected(EmptyNameMessage)
    else if !EqualsIgnoringCase(name, d.oldValue) && HasIgnoringCase(p.Get(c), name) then Rejected(DuplicateMessage(name, c))
    else
      var renamed := p.With(c, Replace(p.Get(c), d.oldValue, name));
      var settled := if response.Accepted? then renamed else renamed.With(c, Replace(renamed.Get(c), name, d.oldValue));
      Applied(settled, FailureAlert(response))
  }

  /** Renaming keeps every list unique ignoring case; when the server does
      not accept a rename of a name the list holds, the lists are exactly
      as they were. */
  lemma RenameOutcomeKeepsUnique(p: Properties, d: EditDraft, response: Response)
    requires d.category.Some? && AllUnique(p) && RenameOutcome(p, d, response).Applied?
    ensures AllUnique(RenameOutcome(p, d, response).properties)
    ensures !response.Accepted? && d.oldValue in p.Get(d.category.value) ==> RenameOutcome(p, d, response).properties == p
  {
    var c, from, name := d.category.value, d.oldValue, Trim(d.newValue);
    var s := p.Get(c);
    var forward := Replace(s, from, name);
    var renamed := p.With(c, forward);
    assert RenameAllowed(s, from, name);
    if response.Accepted? {
      assert RenameOutcome(p, d, response).properties == renamed;
      RenameKeepsUnique(s, from, name);
      WithKeepsAllUnique(p, c, forward);
    } else {
      var back := Replace(forward, name, from);
      assert renamed.Get(c) == forward;
      assert RenameOutcome(p, d, response).properties == renamed.With(c, back);
      WithTwice(p, c, forward, back);
      RevertKeepsUnique(s, from, name);
      WithKeepsAllUnique(p, c, back);
      if from in s {
        RenameThenRevert(s, from, name);
        WithOwnList(p, c);
      }
    }
  }

  /** Replacing a list twice is replacing it with the second list. */
  lemma WithTwice(p: Properties, c: Category, s: seq<string>, t: seq<string>)
    ensures p.With(c, s).With(c, t) == p.With(c, t)
  {
  }

  /** Replacing a list by itself changes nothing. */
  lemma WithOwnList(p: Properties, c: Category)
    ensures p.With(c, p.Get(c)) == p
  {
  }

  /** The name being edited: its category (none when no edit is open), the
      name it had and the text typed so far. */
  datatype EditDraft = EditDraft(category: Option<Category>, oldValue: string, newValue: string)

  const NoDraft := EditDraft(None, "", "")

  /** The page's state. Each handler runs to completion: while a request
      is in flight every control of the page is disabled. */
  class PropertyEditor {
    var properties: Properties
    var newProperty: string
    var isEditing: bool
    var currentEdit: EditDraft
    var isInitialLoading: bool

    /** An open edit always knows its category. */
    predicate EditHasCategory()
      reads this
    {
      isEditing ==> currentEdit.category.Some?
    }

    constructor()
      ensures properties == NoProperties && newProperty == ""
      ensures !isEditing && currentEdit == NoDraft && isInitialLoading
      ensures EditHasCategory()
    {
      properties := NoProperties;
      newProperty := "";
      isEditing := false;
      currentEdit := NoDraft;
      isInitialLoading := true;
    }

    /** The fetch on mount: a successful body replaces the lists (a missing
        list becomes empty); anything else leaves them; loading ends. */
    method FetchProperties(body: Option<Fetched>)
      modifies this`properties, this`isInitialLoading
      ensures body.Some? ==> properties == Properties(OrEmpty(body.value.sizes), OrEmpty(body.value.tags), OrEmpty(body.value.colors))
      ensures body.None? ==> properties == old(properties)
      ensures !isInitialLoading
    {
      if body.Some? {
        properties := Properties(OrEmpty(body.value.sizes), OrEmpty(body.value.tags), OrEmpty(body.value.colors));
      }
      isInitialLoading := false;
    }

    /** The add input's `onChange`. */
    method TypeNewProperty(text: string)
      modifies this`newProperty
      ensures newProperty == text
    {
      newProperty := text;
    }

    /** `handleAddProperty`: a refused name raises its alert and changes
        nothing; an applied one clears the input and leaves the lists as
        `AddOutcome` says. */
    method AddProperty(c: Category, response: Response) returns (alert: Option<string>)
      modifies this`properties, this`newProperty
      ensures AddOutcome(old(properties), c, old(newProperty), response).Rejected? ==>
        alert == Some(AddOutcome(old(properties), c, old(newProperty), response).message)
        && properties == old(properties) && newProperty == old(newProperty)
      ensures AddOutcome(old(properties), c, old(newProperty), response).Applied? ==>
        alert == AddOutcome(old(properties), c, old(newProperty), response).alert
        && properties == AddOutcome(old(properties), c, old(newProperty), response).properties
        && newProperty == ""
    {
      ghost var outcome := AddOutcome(properties, c, newProperty, response);
      var name := Trim(newProperty);
      if name == "" {
        return Some(EmptyNameMessage);
      }
      if HasIgnoringCase(properties.Get(c), name) {
        return Some(DuplicateMessage(name, c));
      }
      var added := properties.With(c, properties.Get(c) + [name]);
      var settled := added;
      if !response.Accepted? {
        settled := added.With(c, RemoveAll(added.Get(c), name));
      }
      assert outcome == Applied(settled, FailureAlert(response));
      properties, newProperty := settled, "";
      alert := FailureAlert(response);
    }

    /** `handleDeleteProperty`: unless confirmed nothing happens; otherwise
        the lists become `DeleteOutcome`'s and the request's alert is
        raised. */
    method DeleteProperty(c: Category, value: string, confirmed: bool, response: Response)
      returns (alert: Option<string>)
      modifies this`properties
      ensures !confirmed ==> properties == old(properties) && alert.None?
      ensures confirmed ==> properties == DeleteOutcome(old(properties), c, value, response)
      ensures confirmed ==> alert == FailureAlert(response)
    {
      alert := None;
      if !confirmed {
        return;
      }
      properties := properties.With(c, RemoveAll(properties.Get(c), value));
      if !response.Accepted? {
        properties := properties.With(c, properties.Get(c) + [value]);
      }
      alert := FailureAlert(response);
    }

    /** `handleEditInitiate`: opens the edit of `value` in `c`, the text
        starting as the name itself. */
    method EditInitiate(c: Category, value: string)
      modifies this`isEditing, this`currentEdit
      ensures isEditing && currentEdit == EditDraft(Some(c), value, value)
      ensures EditHasCategory()
    {
      isEditing := true;
      currentEdit := EditDraft(Some(c), value, value);
    }

    /** The edit input's `onChange`: only the typed text changes. */
    method EditText(text: string)
      modifies this`currentEdit
      ensures currentEdit == old(currentEdit).(newValue := text)
      ensures old(EditHasCategory()) ==> EditHasCategory()
    {
      currentEdit := currentEdit.(newValue := text);
    }

    /** `handleSaveEdit`: a refused name raises its alert and the edit stays
        open; an applied one closes the edit and leaves the lists as
        `RenameOutcome` says. */
    method SaveEdit(response: Response) returns (alert: Option<string>)
      requires isEditing && currentEdit.category.Some?
      modifies this`properties, this`isEditing, this`currentEdit
      ensures RenameOutcome(old(properties), old(currentEdit), response).Rejected? ==>
        alert == Some(RenameOutcome(old(properties), old(currentEdit), response).message)
        && properties == old(properties) && isEditing && currentEdit == old(currentEdit)
      ensures RenameOutcome(old(properties), old(currentEdit), response).Applied? ==>
        alert == RenameOutcome(old(properties), old(currentEdit), response).alert
        && properties == RenameOutcome(old(properties), old(currentEdit), response).properties
        && !isEditing && currentEdit == NoDraft
      ensures EditHasCategory()
    {
      ghost var outcome := RenameOutcome(properties, currentEdit, response);
      var c := currentEdit.category.value;
      var from := currentEdit.oldValue;
      var name := Trim(currentEdit.newValue);
      if name == "" {
        assert outcome == Rejected(EmptyNameMessage);
        return Some(EmptyNameMessage);
      }
      if !EqualsIgnoringCase(name, from) && HasIgnoringCase(properties.Get(c), name) {
        assert outcome == Rejected(DuplicateMessage(name, c));
        return Some(DuplicateMessage(name, c));
      }
      var renamed := properties.With(c, Replace(properties.Get(c), from, name));
      var settled := renamed;
      if !response.Accepted? {
        settled := renamed.With(c, Replace(renamed.Get(c), name, from));
      }
      assert outcome == Applied(settled, FailureAlert(response));
      properties, isEditing, currentEdit := settled, false, NoDraft;
      alert := FailureAlert(response);
    }

    /** `handleCancelEdit`: the edit closes and its draft is cleared. */
    method CancelEdit()
      modifies this`isEditing, this`currentEdit
      ensures !isEditing && currentEdit == NoDraft
      ensures EditHasCategory()
    {
      isEditing := false;
      currentEdit := NoDraft;
    }
  }
}
