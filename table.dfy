/** The contact table as values: the records, the order in which Python's
    dict iterates over their names, the list-box labels built from them, and
    the search and delete operations stated as functions of the table. */
module ContactTable {
  import opened Text
  import opened Labels

  datatype Option<T> = None | Some(value: T)

  /** The record a name maps to: `{'phone': ..., 'email': ..., 'address': ...}`. */
  datatype Contact = Contact(phone: string, email: string, address: string)

  predicate NoDuplicates(keys: seq<string>)
  {
    forall i, j :: 0 <= i < j < |keys| ==> keys[i] != keys[j]
  }

  /** Every name in `keys` has a record. */
  predicate KeysStored(keys: seq<string>, contacts: map<string, Contact>)
  {
    forall i :: 0 <= i < |keys| ==> keys[i] in contacts
  }

  /** `keys` is the dict's iteration order: every stored name exactly once. */
  predicate OrderedKeys(keys: seq<string>, contacts: map<string, Contact>)
  {
    && NoDuplicates(keys)
    && KeysStored(keys, contacts)
    && (forall k :: k in contacts ==> k in keys)
  }

  /** Every stored contact has a phone number. */
  predicate PhonesPresent(contacts: map<string, Contact>)
  {
    forall k :: k in contacts ==> contacts[k].phone != ""
  }

  /** The list box after `update_contact_list`: one label per name of `keys`,
      in that order. */
  function ListLabels(keys: seq<string>, contacts: map<string, Contact>): (labels: seq<string>)
    requires KeysStored(keys, contacts)
    ensures |labels| == |keys|
    ensures forall i :: 0 <= i < |keys| ==> labels[i] == FormatLabel(keys[i], contacts[keys[i]].phone)
  {
    if keys == [] then []
    else ListLabels(keys[..|keys| - 1], contacts) + [FormatLabel(keys[|keys| - 1], contacts[keys[|keys| - 1]].phone)]
  }

  lemma {:induction false} DistinctCount(keys: seq<string>)
    requires NoDuplicates(keys)
    ensures |set k | k in keys| == |keys|
    decreases |keys|
  {
    if keys != [] {
      var init := keys[..|keys| - 1];
      var last := keys[|keys| - 1];
      DistinctCount(init);
      assert (set k | k in keys) == (set k | k in init) + {last};
      assert last !in (set k | k in init);
    }
  }

  /** The listing has exactly one label per stored contact, and every stored
      contact's label is in it. */
  lemma ListingCoversTable(keys: seq<string>, contacts: map<string, Contact>)
    requires OrderedKeys(keys, contacts)
    ensures |ListLabels(keys, contacts)| == |contacts|
    ensures forall k :: k in contacts ==> FormatLabel(k, contacts[k].phone) in ListLabels(keys, contacts)
  {
    DistinctCount(keys);
    assert contacts.Keys == set k | k in keys;
    forall k | k in contacts
      ensures FormatLabel(k, contacts[k].phone) in ListLabels(keys, contacts)
    {
      var i :| 0 <= i < |keys| && keys[i] == k;
      assert ListLabels(keys, contacts)[i] == FormatLabel(k, contacts[k].phone);
    }
  }

  /** Selecting the i-th listed label reads back the i-th name, provided that
      name is unambiguous; the record then found is that contact's own. */
  lemma SelectListedLabel(keys: seq<string>, contacts: map<string, Contact>, i: int)
    requires KeysStored(keys, contacts) && 0 <= i < |keys|
    ensures NameOfLabel(ListLabels(keys, contacts)[i]) == keys[i] <==> Unambiguous(keys[i])
  {
    LabelRoundTrip(keys[i], contacts[keys[i]].phone);
  }

  /** Storing a new name and appending it to the order keeps an iteration
      order; so does replacing the record of a stored name. */
  lemma StoreKeepsOrder(keys: seq<string>, contacts: map<string, Contact>, name: string, record: Contact)
    requires OrderedKeys(keys, contacts)
    ensures name !in contacts ==> OrderedKeys(keys + [name], contacts[name := record])
    ensures name in contacts ==> OrderedKeys(keys, contacts[name := record])
  {
  }

  /** Storing a record with a phone number keeps every phone present. */
  lemma StoreKeepsPhones(contacts: map<string, Contact>, name: string, record: Contact)
    requires PhonesPresent(contacts) && record.phone != ""
    ensures PhonesPresent(contacts[name := record])
  {
  }

  /** The names of `keys` other than `name`, in their original order: the
      iteration order after `del contacts[name]`. */
  function Without(keys: seq<string>, name: string): (rest: seq<string>)
    ensures forall k :: k in rest <==> k in keys && k != name
    decreases |keys|
  {
    if keys == [] then []
    else if keys[0] == name then Without(keys[1..], name)
    else [keys[0]] + Without(keys[1..], name)
  }

  lemma {:induction false} WithoutAbsent(keys: seq<string>, name: string)
    requires name !in keys
    ensures Without(keys, name) == keys
    decreases |keys|
  {
    if keys != [] {
      WithoutAbsent(keys[1..], name);
    }
  }

  /** Deleting the name at position i closes the gap and keeps every other
      name where it was relative to the rest. */
  lemma {:induction false} WithoutAt(keys: seq<string>, i: int)
    requires NoDuplicates(keys) && 0 <= i < |keys|
    ensures Without(keys, keys[i]) == keys[..i] + keys[i + 1..]
    decreases |keys|
  {
    if i == 0 {
      WithoutAbsent(keys[1..], keys[0]);
    } else {
      WithoutAt(keys[1..], i - 1);
      assert keys[1..][i - 1] == keys[i];
      assert keys[..i] == [keys[0]] + keys[1..][..i - 1];
      assert keys[i + 1..] == keys[1..][i..];
    }
  }

  lemma ClosedGapAt(keys: seq<string>, i: int, a: int)
    requires 0 <= i < |keys| && 0 <= a < |keys| - 1
    ensures (keys[..i] + keys[i + 1..])[a] == keys[if a < i then a else a + 1]
  {
  }

  /** Removing a stored name leaves an iteration order for the smaller table. */
  lemma WithoutKeepsOrder(keys: seq<string>, contacts: map<string, Contact>, name: string)
    requires OrderedKeys(keys, contacts) && name in contacts
    ensures OrderedKeys(Without(keys, name), contacts - {name})
  {
    var i :| 0 <= i < |keys| && keys[i] == name;
    WithoutAt(keys, i);
    var rest := Without(keys, name);
    forall a, b | 0 <= a < b < |rest|
      ensures rest[a] != rest[b]
    {
      ClosedGapAt(keys, i, a);
      ClosedGapAt(keys, i, b);
    }
    forall a | 0 <= a < |rest|
      ensures rest[a] in contacts - {name}
    {
      assert rest[a] in rest;
    }
  }

  /** `term in name.lower() or term in details['phone']`. */
  predicate Matches(name: string, record: Contact, term: string)
  {
    Contains(Lower(name), term) || Contains(record.phone, term)
  }

  /** The search term as the source prepares it: `term.strip().lower()`. */
  function SearchTerm(input: string): string
  {
    Lower(Trim(input))
  }

  /** The position of the last name of `keys` whose contact matches `term`,
      if any contact matches. */
  function LastMatch(keys: seq<string>, contacts: map<string, Contact>, term: string): (r: Option<nat>)
    requires KeysStored(keys, contacts)
    ensures r.Some? ==> r.value < |keys| && Matches(keys[r.value], contacts[keys[r.value]], term)
    ensures r.Some? ==> forall j :: r.value < j < |keys| ==> !Matches(keys[j], contacts[keys[j]], term)
    ensures r.None? <==> forall j :: 0 <= j < |keys| ==> !Matches(keys[j], contacts[keys[j]], term)
  {
    if keys == [] then None
    else if Matches(keys[|keys| - 1], contacts[keys[|keys| - 1]], term) then Some(|keys| - 1)
    else LastMatch(keys[..|keys| - 1], contacts, term)
  }

  /** The labels of every matching contact, in iteration order. */
  function MatchLabels(keys: seq<string>, contacts: map<string, Contact>, term: string): (labels: seq<string>)
    requires KeysStored(keys, contacts)
  {
    if keys == [] then []
    else
      var name := keys[|keys| - 1];
      MatchLabels(keys[..|keys| - 1], contacts, term)
        + (if Matches(name, contacts[name], term) then [FormatLabel(name, contacts[name].phone)] else [])
  }

  /** The last label of the full match list is the last match's label; the
      list is empty exactly when nothing matches. */
  lemma {:induction false} MatchLabelsLast(keys: seq<string>, contacts: map<string, Contact>, term: string)
    requires KeysStored(keys, contacts)
    ensures MatchLabels(keys, contacts, term) == [] <==> LastMatch(keys, contacts, term).None?
    ensures LastMatch(keys, contacts, term).Some? ==>
      var k := keys[LastMatch(keys, contacts, term).value];
      var labels := MatchLabels(keys, contacts, term);
      labels != [] && labels[|labels| - 1] == FormatLabel(k, contacts[k].phone)
    decreases |keys|
  {
    if keys != [] {
      var init := keys[..|keys| - 1];
      MatchLabelsLast(init, contacts, term);
      if LastMatch(keys, contacts, term).Some? {
        assert LastMatch(keys, contacts, term).value < |init| ==> init[LastMatch(keys, contacts, term).value] == keys[LastMatch(keys, contacts, term).value];
      }
    }
  }

  /** The full match list holds at least the matches at positions i and j. */
  lemma {:induction false} MatchLabelsCount(keys: seq<string>, contacts: map<string, Contact>, term: string, i: int, j: int)
    requires KeysStored(keys, contacts)
    requires 0 <= i < j < |keys|
    requires Matches(keys[i], contacts[keys[i]], term) && Matches(keys[j], contacts[keys[j]], term)
    ensures |MatchLabels(keys, contacts, term)| >= 2
    decreases |keys|
  {
    var init := keys[..|keys| - 1];
    if j == |keys| - 1 {
      assert init[i] == keys[i];
      assert LastMatch(init, contacts, term).Some?;
      MatchLabelsLast(init, contacts, term);
    } else {
      assert init[i] == keys[i] && init[j] == keys[j];
      MatchLabelsCount(init, contacts, term, i, j);
    }
  }

  /** The listing `search_contact` leaves behind when something matches is the
      single label of the last match: the last element of the full match
      list, and shorter than it as soon as two contacts match. */
  lemma SearchShowsOnlyLastMatch(keys: seq<string>, contacts: map<string, Contact>, term: string, i: int, j: int)
    requires KeysStored(keys, contacts)
    requires 0 <= i < j < |keys|
    requires Matches(keys[i], contacts[keys[i]], term) && Matches(keys[j], contacts[keys[j]], term)
    ensures LastMatch(keys, contacts, term).Some?
    ensures var k := keys[LastMatch(keys, contacts, term).value];
      var labels := MatchLabels(keys, contacts, term);
      && |labels| >= 2
      && [FormatLabel(k, contacts[k].phone)] == labels[|labels| - 1..]
      && [FormatLabel(k, contacts[k].phone)] != labels
  {
    MatchLabelsLast(keys, contacts, term);
    MatchLabelsCount(keys, contacts, term, i, j);
  }

  /** A search input made only of whitespace is not empty, so it is searched
      for; it strips to the empty term, which every contact matches, and the
      last contact in iteration order is the one left listed. */
  lemma BlankSearchMatchesAll(keys: seq<string>, contacts: map<string, Contact>, input: string)
    requires KeysStored(keys, contacts) && keys != []
    requires forall i :: 0 <= i < |input| ==> IsSpace(input[i])
    ensures SearchTerm(input) == ""
    ensures LastMatch(keys, contacts, SearchTerm(input)) == Some(|keys| - 1)
  {
    TrimSpec(input);
  }

  /** Neither the case of the search input nor the case of a name changes
      whether the name matches. */
  lemma SearchIgnoresCase(name: string, record: Contact, input: string)
    ensures SearchTerm(Lower(input)) == SearchTerm(input)
    ensures forall term :: Matches(Lower(name), record, term) == Matches(name, record, term)
  {
    TrimLower(input);
    LowerIdempotent(Trim(input));
    LowerIdempotent(name);
  }

  /** The full match list holds exactly the matching contacts' labels;
      `MatchLabelsAppend` gives their order. */
  lemma {:induction false} MatchLabelsSpec(keys: seq<string>, contacts: map<string, Contact>, term: string)
    requires KeysStored(keys, contacts)
    ensures forall j :: 0 <= j < |keys| && Matches(keys[j], contacts[keys[j]], term) ==>
      FormatLabel(keys[j], contacts[keys[j]].phone) in MatchLabels(keys, contacts, term)
    ensures forall line :: line in MatchLabels(keys, contacts, term) ==>
      exists j :: 0 <= j < |keys| && Matches(keys[j], contacts[keys[j]], term) &&
        line == FormatLabel(keys[j], contacts[keys[j]].phone)
    decreases |keys|
  {
    if keys != [] {
      var init := keys[..|keys| - 1];
      MatchLabelsSpec(init, contacts, term);
      assert forall j :: 0 <= j < |init| ==> init[j] == keys[j];
    }
  }

  /** The match list of consecutive stretches of the order is the match list
      of the first followed by that of the second. With the one-name case of
      the definition (the name's label when it matches, nothing otherwise),
      this gives one label per matching name, in iteration order. */
  lemma {:induction false} MatchLabelsAppend(a: seq<string>, b: seq<string>, contacts: map<string, Contact>, term: string)
    requires KeysStored(a, contacts) && KeysStored(b, contacts)
    ensures KeysStored(a + b, contacts)
    ensures MatchLabels(a + b, contacts, term) == MatchLabels(a, contacts, term) + MatchLabels(b, contacts, term)
    decreases |b|
  {
    if b == [] {
      assert a + b == a;
    } else {
      var init := b[..|b| - 1];
      MatchLabelsAppend(a, init, contacts, term);
      assert (a + b)[..|a + b| - 1] == a + init;
    }
  }
}
