# Contact manager model

A Dafny model of `ContactManagerApp`, the single-window contact book in
`contact.py`. The application keeps a dictionary from a contact's name to
its phone, email and address, shows one `"{name} - {phone}"` line per contact
in a list box, and rewrites the whole contacts file after every change. Its
buttons add, update, delete and search contacts. Selecting a line in the list
copies that contact into the four entry fields.

The model has four modules:

- `Text` (`text.dfy`) holds the string operations the application uses:
  `str.strip()`, `str.lower()` and the substring test `sub in s`. Each is a
  plain function, and lemmas beside it prove what it means.
- `Labels` (`labels.dfy`) holds the list-box label `name + " - " + phone` and
  the way the application reads a name back from it,
  `label.split(" - ")[0]`.
- `ContactTable` (`table.dfy`) describes the contact table as values:
  - the records;
  - the order in which the dictionary iterates over their names;
  - the listing `update_contact_list` builds;
  - what a search matches;
  - the order left after a delete.
- `ContactManager` (`app.dfy`) holds the class `ContactManagerApp`.
  - Its fields are the table, the iteration order, the list box as a sequence
    of labels, and the four entry fields.
  - It has one method per button and list event. Each method states the whole
    new state and the notice it pops up.
  - Every mutating method keeps the invariant `Valid()`: the order lists each
    stored name exactly once.
  - `AddContact`, `UpdateContact` and `DeleteContact` also keep the property
    that every stored contact has a phone number, and so do their helpers
    `InsertContact` (whose record must have a phone) and `RemoveContact`.

Two behaviours are worth knowing:

- A name reads back from its own label exactly when it holds no `" - "` and
  does not end in `" -"`. A name such as `"Bob -"` gives the label
  `"Bob - - 555"`, which reads back as `"Bob"`. Update and delete then act on
  `"Bob"`, or report Contact not found; select fills the fields from `"Bob"`,
  with `""` when no such contact is stored. A
  separator inside the name is not the only way the round trip fails. See
  `Labels.LabelRoundTrip`.
- A search lists only the last matching contact, although one would expect
  every matching contact to be listed; see "## Findings". The model follows
  the code, and models the expected search beside it.

## Model

| member | source | states |
|---|---|---|
| Text.TrimLeftSpec | contact.py:64 | Stripping on the left drops only leading whitespace and keeps the rest as a suffix. The result starts with a non-space or is empty. |
| Text.TrimRightSpec | contact.py:64 | Stripping on the right drops only trailing whitespace and keeps the rest as a prefix. The result ends with a non-space or is empty. |
| Text.TrimSpec | contact.py:64-69 | `strip()` yields the slice between the leading and trailing whitespace. That slice is empty exactly when the input is all whitespace, which is the case `not name or not phone` rejects. |
| Text.Lower | contact.py:131 | `lower()` keeps the length, changes only ASCII capitals, maps each to the letter 32 code points later, and leaves no ASCII capital behind. |
| Text.ContainsSpec | contact.py:134 | `term in s` holds exactly when the term occurs at some position of `s`. The empty term occurs in every string. |
| Text.TrimLower | contact.py:131 | Stripping and lower-casing commute, so `strip().lower()` equals `lower().strip()`. |
| Labels.NameOfLabelSpec | contact.py:93 | `split(" - ")[0]` gives a prefix of the label. The prefix is either the whole label or is followed by the separator, and no separator starts earlier. |
| Labels.LabelRoundTrip | contact.py:144-149 | Reading the name back from `f"{name} - {phone}"` gives `name` if and only if the name holds no `" - "` and does not end in `" -"`. |
| ContactTable.ListLabels | contact.py:141-144 | The listing has one label per name in iteration order, and the i-th label is `name - phone` of the i-th name. |
| ContactTable.ListingCoversTable | contact.py:141-144 | The listing has as many lines as there are stored contacts, and every stored contact's label appears in it. |
| ContactTable.SelectListedLabel | contact.py:146-150 | Selecting the i-th line reads back the i-th name exactly when that name is unambiguous. |
| ContactTable.StoreKeepsOrder | contact.py:77-81 | Storing a new name at the end of the order, or replacing a stored name's record, keeps every stored name listed exactly once. |
| ContactTable.StoreKeepsPhones | contact.py:77-81 | Storing a record that has a phone keeps every stored contact's phone non-empty. |
| ContactTable.Without | contact.py:121 | After `del`, the iteration order holds exactly the other names. |
| ContactTable.WithoutAt | contact.py:121 | Deleting the name at position i closes the gap: the new order is the old one without position i. |
| ContactTable.WithoutKeepsOrder | contact.py:120-121 | After deleting a stored name, each remaining name is listed exactly once in the order of the smaller table. |
| ContactTable.LastMatch | contact.py:133-137 | Gives the position of the last contact in iteration order whose lower-cased name or raw phone contains the term, with no match after it. It gives none exactly when no contact matches. |
| ContactTable.MatchLabelsLast | contact.py:133-137 | The list of all matching labels is empty exactly when nothing matches. Otherwise its last element is the label of the last match. |
| ContactTable.SearchShowsOnlyLastMatch | contact.py:133-137 | With two matches, what `search_contact` leaves listed is only the last element of the full match list, and it differs from the full list. |
| ContactTable.BlankSearchMatchesAll | contact.py:130-134 | A non-empty search of only whitespace strips to the empty term, which every contact matches, so the last contact is the one left listed. |
| ContactTable.SearchIgnoresCase | contact.py:131-134 | Lower-casing the input does not change the search term, and lower-casing a name does not change whether it matches any term. |
| ContactTable.MatchLabelsSpec | contact.py:133-136 | The full match list holds the label of every matching contact, and every label in it is the label of a matching contact. |
| ContactTable.MatchLabelsAppend | contact.py:133-136 | The match list of two consecutive stretches of the order is the first stretch's match list followed by the second's, so the labels come one per matching name, in iteration order. |
| ContactManager.ContactManagerApp.constructor | contact.py:21-32 | Starts from the loaded table and its order, recorded as saved. The list box shows its listing and the fields are empty. |
| ContactManager.ContactManagerApp.SaveContacts | contact.py:15-18 | The file holds the whole table and its order as they are now. |
| ContactManager.ContactManagerApp.UpdateContactList | contact.py:141-144 | The list box becomes exactly the listing of the table in iteration order. |
| ContactManager.ContactManagerApp.ClearFields | contact.py:156-161 | All four entry fields become empty. |
| ContactManager.ContactManagerApp.AddContact | contact.py:63-85 | Nothing changes when the stripped name or phone is empty (Input Error) or the name exists (Contact Exists). Otherwise the stripped record is stored under the new name, last in order, with the file saved, the list rebuilt and ending with its label, and the fields cleared. The order invariant and present phones are kept. |
| ContactManager.ContactManagerApp.InsertContact | contact.py:77-85 | A new name maps to the record and goes last in iteration order. The list is rebuilt, the fields are cleared and the file is saved. The order invariant and present phones are kept. |
| ContactManager.ContactManagerApp.UpdateContact | contact.py:87-110 | No selection gives Selection Error and an unknown name gives Contact not found; neither changes anything. Otherwise each non-empty stripped field overwrites that field of the named contact. Everything else stays as it was: other contacts, the order and the entry fields. The file is saved and the list rebuilt. |
| ContactManager.ContactManagerApp.ReplaceRecord | contact.py:99-108 | The stored name maps to the new record at the same place in iteration order. The list is rebuilt and the file saved. |
| ContactManager.ContactManagerApp.DeleteContact | contact.py:112-126 | No selection gives Selection Error and an unknown name gives Contact not found; neither changes anything. Otherwise exactly the named contact is removed and the others keep their order. The file is saved and the list rebuilt. |
| ContactManager.ContactManagerApp.RemoveContact | contact.py:120-124 | The table loses the name and the order closes the gap. The list is rebuilt and the file saved. The order invariant and present phones are kept. |
| ContactManager.ContactManagerApp.SearchContact | contact.py:128-139 | No input or an empty input does nothing. A match leaves only the label of the last match in the list box. No match reports "No contact found" and leaves the list box as it was. |
| ContactManager.ContactManagerApp.SearchContactAll | contact.py:128-139 | Corrected search: a match leaves the full match list in the list box, which by `MatchLabelsSpec` holds exactly the matching contacts' labels and by `MatchLabelsAppend` lists them one per matching name, in iteration order. The other cases are as in `search_contact`. |
| ContactManager.ContactManagerApp.OnListboxSelect | contact.py:146-154 | No selection changes nothing. Otherwise the name field gets the name read from the label, and the other fields get that contact's values, or `""` when the name is not stored. Selecting the listed label of an unambiguous name fills the fields with exactly that contact's stored name, phone, email and address. |

## Left out

- Reading and writing `contacts.json` (`load_contacts`, `save_contacts`, `json.load`, `json.dump`) is file I/O.
  - The loaded table is a constructor parameter; the empty table `load_contacts` returns when the file is missing (contact.py:12-13) is one such argument, but that case is not modelled separately.
  - A save is a ghost snapshot of the table. A failed write (contact.py:17), which would leave the table changed but skip the list rebuild and the field clearing, is not modelled.
  - The save/load round trip is not modelled.
  - An unreadable or malformed file, which crashes the source, is not modelled.
- A loaded record is assumed to have all three fields, each a string. A file record without `phone` would make the source raise `KeyError` when listing, and a non-string phone would make a search raise `TypeError` at `search_term in details['phone']`.
- The window, widgets and message boxes are not modelled.
  - Each pop-up is the `Notice` an operation returns.
  - The active list-box line is the parameter `selected`, with `""` for no selection.
  - The search dialog's answer is an `Option<string>`, where `None` means the dialog was cancelled.
- The "View Contacts" button just calls `update_contact_list`, which is modelled.
- Text.Lower: covers ASCII only. Python's `str.lower()` and `str.strip()` also act on non-ASCII letters and whitespace, which the model treats as ordinary characters.
- ContactManager.ContactManagerApp.AddContact, ContactManager.ContactManagerApp.ReplaceRecord, ContactManager.ContactManagerApp.RemoveContact: the file write happens after the list rebuild (and, on add, the field clearing), not before them as in the source (contact.py:82-85, 106-108, 122-124). It is ghost and changes nothing else, so the final state is the same.
- ContactManager.ContactManagerApp.UpdateContact: models the in-place change of the nested record dict as storing a new record under the same name. Nothing else holds a reference to that dict, so the final state is the same.

## Findings

| source | as written | input that shows it | evidently intended | confidence | as-written member | corrected member |
|---|---|---|---|---|---|---|
| contact.py:133-137 | `delete(0, tk.END)` sits inside the loop over matches, so each match clears the list box and only the last match stays listed | contacts `"Ann"` then `"Annie"`, search `"ann"`: only `"Annie - …"` is shown | every matching contact is listed, in iteration order | not executed | ContactTable.SearchShowsOnlyLastMatch, ContactManager.ContactManagerApp.SearchContact | ContactManager.ContactManagerApp.SearchContactAll |
