/** `ContactManagerApp` without its widgets: the contact table, the list box
    as the sequence of labels it shows, and the four entry fields, changed in
    place by one method per button or list event. */
module ContactManager {
  import opened Text
  import opened Labels
  import opened ContactTable

  /** The pop-up an operation shows, if any. */
  datatype Notice =
    | Quiet
    | InputError       // "Name and Phone are required."
    | ContactExists    // "Contact with this name already exists."
    | SelectionError   // "Please select a contact to update/delete."
    | ContactNotFound  // "Contact not found."
    | NoContactFound   // "No contact found."
    | Added
    | Updated
    | Deleted

  class ContactManagerApp {
    /** `self.contacts` and the order in which the dict iterates over it. */
    var contacts: map<string, Contact>
    var order: seq<string>
    /** The labels the list box shows, top to bottom. */
    var listbox: seq<string>
    /** The entry fields `name_var`, `phone_var`, `email_var`, `address_var`. */
    var nameVar: string
    var phoneVar: string
    var emailVar: string
    var addressVar: string
    /** What the contacts file holds: the table as last saved. */
    ghost var savedOrder: seq<string>
    ghost var savedContacts: map<string, Contact>

    ghost predicate Valid()
      reads this`order, this`contacts
    {
      OrderedKeys(order, contacts)
    }

    /** `__init__`: start from the table read from the contacts file (empty
        when there is none) and list it. */
    constructor (loadedOrder: seq<string>, loaded: map<string, Contact>)
      requires OrderedKeys(loadedOrder, loaded)
      ensures Valid()
      ensures contacts == loaded && order == loadedOrder
      ensures savedContacts == loaded && savedOrder == loadedOrder
      ensures listbox == ListLabels(order, contacts)
      ensures nameVar == phoneVar == emailVar == addressVar == ""
    {
      contacts := loaded;
      order := loadedOrder;
      savedContacts := loaded;
      savedOrder := loadedOrder;
      listbox := [];
      nameVar, phoneVar, emailVar, addressVar := "", "", "", "";
      new;
      UpdateContactList();
    }

    /** `save_contacts`: the file now holds the whole table. */
    ghost method SaveContacts()
      modifies this`savedOrder, this`savedContacts
      ensures savedOrder == order && savedContacts == contacts
    {
      savedOrder := order;
      savedContacts := contacts;
    }

    /** `update_contact_list`: clear the list box, then one label per contact
        in iteration order. */
    method UpdateContactList()
      requires KeysStored(order, contacts)
      modifies this`listbox
      ensures listbox == ListLabels(order, contacts)
    {
      listbox := [];
      var i := 0;
      while i < |order|
        invariant 0 <= i <= |order|
        invariant |listbox| == i
        invariant forall j :: 0 <= j < i ==> listbox[j] == FormatLabel(order[j], contacts[order[j]].phone)
      {
        var name := order[i];
        listbox := listbox + [FormatLabel(name, contacts[name].phone)];
        i := i + 1;
      }
    }

    /** `clear_fields`. */
    method ClearFields()
      modifies this`nameVar, this`phoneVar, this`emailVar, this`addressVar
      ensures nameVar == phoneVar == emailVar == addressVar == ""
    {
      nameVar := "";
      phoneVar := "";
      emailVar := "";
      addressVar := "";
    }

    /** `add_contact`: the stripped name and phone must be non-empty and the
        name new; the contact then goes last in iteration order, the file is
        rewritten, the list rebuilt and the fields cleared. */
    method AddContact() returns (notice: Notice)
      requires Valid()
      modifies this
      ensures Valid()
      ensures var name, phone := Trim(old(nameVar)), Trim(old(phoneVar));
        && (name == "" || phone == "" ==> notice == InputError && unchanged(this))
        && (name != "" && phone != "" && name in old(contacts) ==> notice == ContactExists && unchanged(this))
        && (name != "" && phone != "" && name !in old(contacts) ==>
              && notice == Added
              && contacts == old(contacts)[name := Contact(phone, Trim(old(emailVar)), Trim(old(addressVar)))]
              && order == old(order) + [name]
              && savedContacts == contacts && savedOrder == order
              && listbox == ListLabels(order, contacts)
              && listbox[|listbox| - 1] == FormatLabel(name, phone)
              && nameVar == phoneVar == emailVar == addressVar == "")
      ensures old(PhonesPresent(contacts)) ==> PhonesPresent(contacts)
    {
      var name := Trim(nameVar);
      var phone := Trim(phoneVar);
      var email := Trim(emailVar);
      var address := Trim(addressVar);

      if name == "" || phone == "" {
        return InputError;
      }
      if name in contacts {
        return ContactExists;
      }

      notice := Added;
      InsertContact(name, Contact(phone, email, address));
    }

    /** The end of a successful `add_contact`: store the record under its new
        name, which goes last in iteration order, rebuild the list, clear the
        fields and rewrite the file. */
    method InsertContact(name: string, record: Contact)
      requires Valid() && name !in contacts && record.phone != ""
      modifies this`contacts, this`order, this`listbox, this`savedOrder, this`savedContacts
      modifies this`nameVar, this`phoneVar, this`emailVar, this`addressVar
      ensures Valid()
      ensures contacts == old(contacts)[name := record]
      ensures order == old(order) + [name]
      ensures listbox == ListLabels(order, contacts)
      ensures nameVar == phoneVar == emailVar == addressVar == ""
      ensures savedContacts == contacts && savedOrder == order
      ensures old(PhonesPresent(contacts)) ==> PhonesPresent(contacts)
    {
      StoreKeepsOrder(order, contacts, name, record);
      if PhonesPresent(contacts) {
        StoreKeepsPhones(contacts, name, record);
      }
      contacts := contacts[name := record];
      order := order + [name];
      UpdateContactList();
      ClearFields();
      // The file write is ghost; it sits last so the proof need not carry the
      // snapshot across the two calls above.
      SaveContacts();
    }

    /** `update_contact`: the name comes from the selected label; each of
        phone, email and address is overwritten only by a non-empty stripped
        entry. No selection or an unknown name changes nothing; the order,
        the entry fields and every other contact never change. */
    method UpdateContact(selected: string) returns (notice: Notice)
      requires Valid()
      modifies this`contacts, this`listbox, this`savedOrder, this`savedContacts
      ensures Valid()
      ensures selected == "" ==> notice == SelectionError && unchanged(this)
      ensures selected != "" && NameOfLabel(selected) !in old(contacts) ==>
        notice == ContactNotFound && unchanged(this)
      ensures var name := NameOfLabel(selected);
        var phone, email, address := Trim(old(phoneVar)), Trim(old(emailVar)), Trim(old(addressVar));
        selected != "" && name in old(contacts) ==>
          && notice == Updated
          && contacts == old(contacts)[name := contacts[name]]
          && contacts[name].phone == (if phone != "" then phone else old(contacts)[name].phone)
          && contacts[name].email == (if email != "" then email else old(contacts)[name].email)
          && contacts[name].address == (if address != "" then address else old(contacts)[name].address)
          && listbox == ListLabels(order, contacts)
          && savedContacts == contacts && savedOrder == order
      ensures old(PhonesPresent(contacts)) ==> PhonesPresent(contacts)
    {
      if selected == "" {
        return SelectionError;
      }
      var name := NameOfLabel(selected);
      var phone := Trim(phoneVar);
      var email := Trim(emailVar);
      var address := Trim(addressVar);

      if name in contacts {
        var record := contacts[name];
        if phone != "" {
          record := record.(phone := phone);
        }
        if email != "" {
          record := record.(email := email);
        }
        if address != "" {
          record := record.(address := address);
        }
        notice := Updated;
        ReplaceRecord(name, record);
      } else {
        notice := ContactNotFound;
      }
    }

    /** The end of a successful `update_contact`: the stored name now maps to
        `record`, in the same place in iteration order; the list is rebuilt
        and the file rewritten. */
    method ReplaceRecord(name: string, record: Contact)
      requires Valid() && name in contacts
      modifies this`contacts, this`listbox, this`savedOrder, this`savedContacts
      ensures Valid()
      ensures contacts == old(contacts)[name := record]
      ensures listbox == ListLabels(order, contacts)
      ensures savedContacts == contacts && savedOrder == order
      ensures old(PhonesPresent(contacts)) && record.phone != "" ==> PhonesPresent(contacts)
    {
      StoreKeepsOrder(order, contacts, name, record);
      if PhonesPresent(contacts) && record.phone != "" {
        StoreKeepsPhones(contacts, name, record);
      }
      contacts := contacts[name := record];
      UpdateContactList();
      SaveContacts();
    }

    /** `delete_contact`: removes exactly the name read from the selected
        label; the other names keep their records and their order. No
        selection or an unknown name changes nothing; the entry fields never
        change. */
    method DeleteContact(selected: string) returns (notice: Notice)
      requires Valid()
      modifies this`contacts, this`order, this`listbox, this`savedOrder, this`savedContacts
      ensures Valid()
      ensures selected == "" ==> notice == SelectionError && unchanged(this)
      ensures selected != "" && NameOfLabel(selected) !in old(contacts) ==>
        notice == ContactNotFound && unchanged(this)
      ensures var name := NameOfLabel(selected);
        selected != "" && name in old(contacts) ==>
          && notice == Deleted
          && contacts == old(contacts) - {name}
          && order == Without(old(order), name)
          && listbox == ListLabels(order, contacts)
          && savedContacts == contacts && savedOrder == order
      ensures old(PhonesPresent(contacts)) ==> PhonesPresent(contacts)
    {
      if selected == "" {
        return SelectionError;
      }
      var name := NameOfLabel(selected);

      if name in contacts {
        notice := Deleted;
        RemoveContact(name);
      } else {
        notice := ContactNotFound;
      }
    }

    /** The end of a successful `delete_contact`: `del contacts[name]`, which
        closes the gap in iteration order; the list is rebuilt and the file
        rewritten. */
    method RemoveContact(name: string)
      requires Valid() && name in contacts
      modifies this`contacts, this`order, this`listbox, this`savedOrder, this`savedContacts
      ensures Valid()
      ensures contacts == old(contacts) - {name}
      ensures order == Without(old(order), name)
      ensures listbox == ListLabels(order, contacts)
      ensures savedContacts == contacts && savedOrder == order
      ensures old(PhonesPresent(contacts)) ==> PhonesPresent(contacts)
    {
      WithoutKeepsOrder(order, contacts, name);
      contacts := contacts - {name};
      order := Without(order, name);
      UpdateContactList();
      SaveContacts();
    }

    /** `search_contact` as written: the list box is cleared inside the loop,
        at every match, so after a successful search it shows only the label
        of the last matching contact. No input (`None` or `""`) does nothing;
        no match reports it and leaves the list box as it was. */
    method SearchContact(input: Option<string>) returns (notice: Notice)
      requires Valid()
      modifies this`listbox
      ensures input.None? || input.value == "" ==> notice == Quiet && listbox == old(listbox)
      ensures input.Some? && input.value != "" ==>
        match LastMatch(order, contacts, SearchTerm(input.value))
        case Some(i) =>
          notice == Quiet && listbox == [FormatLabel(order[i], contacts[order[i]].phone)]
        case None =>
          notice == NoContactFound && listbox == old(listbox)
    {
      notice := Quiet;
      if input.Some? && input.value != "" {
        var term := Lower(Trim(input.value));
        var found := false;
        var i := 0;
        while i < |order|
          invariant 0 <= i <= |order|
          invariant found <==> LastMatch(order[..i], contacts, term).Some?
          invariant !found ==> listbox == old(listbox)
          invariant found ==> var m := LastMatch(order[..i], contacts, term).value;
            listbox == [FormatLabel(order[m], contacts[order[m]].phone)]
        {
          assert order[..i + 1][..i] == order[..i];
          var name := order[i];
          var details := contacts[name];
          if Contains(Lower(name), term) || Contains(details.phone, term) {
            listbox := [];
            listbox := listbox + [FormatLabel(name, details.phone)];
            found := true;
          }
          i := i + 1;
        }
        assert order[..i] == order;
        if !found {
          notice := NoContactFound;
        }
      }
    }

    /** `search_contact` as evidently intended: after a successful search the
        list box shows every matching contact, in iteration order. */
    method SearchContactAll(input: Option<string>) returns (notice: Notice)
      requires Valid()
      modifies this`listbox
      ensures input.None? || input.value == "" ==> notice == Quiet && listbox == old(listbox)
      ensures input.Some? && input.value != "" ==>
        var matches := MatchLabels(order, contacts, SearchTerm(input.value));
        && (matches != [] ==> notice == Quiet && listbox == matches)
        && (matches == [] ==> notice == NoContactFound && listbox == old(listbox))
    {
      notice := Quiet;
      if input.Some? && input.value != "" {
        var term := Lower(Trim(input.value));
        var matches := [];
        var i := 0;
        while i < |order|
          invariant 0 <= i <= |order|
          invariant matches == MatchLabels(order[..i], contacts, term)
        {
          assert order[..i + 1][..i] == order[..i];
          var name := order[i];
          var details := contacts[name];
          if Contains(Lower(name), term) || Contains(details.phone, term) {
            matches := matches + [FormatLabel(name, details.phone)];
          }
          i := i + 1;
        }
        assert order[..i] == order;
        if matches != [] {
          listbox := matches;
        } else {
          notice := NoContactFound;
        }
      }
    }

    /** `on_listbox_select`: fill the fields from the contact named by the
        selected label, with `""` for a name not in the table. No selection
        changes nothing. Selecting a listed label of an unambiguous name
        fills the fields with that contact's stored values. */
    method OnListboxSelect(selected: string)
      modifies this`nameVar, this`phoneVar, this`emailVar, this`addressVar
      ensures selected == "" ==> unchanged(this)
      ensures var name := NameOfLabel(selected);
        selected != "" ==>
          && nameVar == name
          && phoneVar == (if name in contacts then contacts[name].phone else "")
          && emailVar == (if name in contacts then contacts[name].email else "")
          && addressVar == (if name in contacts then contacts[name].address else "")
      ensures KeysStored(order, contacts) && listbox == ListLabels(order, contacts) ==>
        forall i :: 0 <= i < |listbox| && selected == listbox[i] && Unambiguous(order[i]) ==>
          var record := contacts[order[i]];
          && nameVar == order[i]
          && phoneVar == record.phone && emailVar == record.email && addressVar == record.address
    {
      if KeysStored(order, contacts) && listbox == ListLabels(order, contacts) {
        forall i | 0 <= i < |listbox| && selected == listbox[i] && Unambiguous(order[i])
          ensures NameOfLabel(selected) == order[i]
        {
          SelectListedLabel(order, contacts, i);
        }
      }
      if selected != "" {
        var name := NameOfLabel(selected);
        var contact: Option<Contact> := if name in contacts then Some(contacts[name]) else None;
        nameVar := name;
        phoneVar := if contact.Some? then contact.value.phone else "";
        emailVar := if contact.Some? then contact.value.email else "";
        addressVar := if contact.Some? then contact.value.address else "";
      }
    }
  }
}
