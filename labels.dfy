/** The list-box labels of the contact manager: a contact is shown as
    `"{name} - {phone}"`, and the name is read back from a label with
    `label.split(" - ")[0]`. */
module Labels {
  import opened Text

  const Separator: string := " - "

  /** The text shown for one contact. */
  function FormatLabel(name: string, phone: string): string
  {
    name + Separator + phone
  }

  /** `label.split(" - ")[0]`: the text before the first separator, or the
      whole label when it holds none. */
  function NameOfLabel(line: string): string
    decreases |line|
  {
    if Separator <= line then ""
    else if line == [] then []
    else [line[0]] + NameOfLabel(line[1..])
  }

  /** NameOfLabel gives a prefix of the label that is either the whole label
      or followed by a separator, and no separator starts before its end. */
  lemma {:induction false} NameOfLabelSpec(line: string)
    ensures var name := NameOfLabel(line);
      && name <= line
      && (name == line || OccursAt(line, Separator, |name|))
      && (forall i :: OccursAt(line, Separator, i) ==> |name| <= i)
    decreases |line|
  {
    if Separator <= line {
      assert line[0..|Separator|] == Separator;
    } else if line != [] {
      var rest := NameOfLabel(line[1..]);
      NameOfLabelSpec(line[1..]);
      OccursShift(line, Separator, |rest|);
      forall i | OccursAt(line, Separator, i)
        ensures |rest| + 1 <= i
      {
        assert i != 0;
        OccursShift(line, Separator, i - 1);
      }
    }
  }

  /** A name that its own label gives back: it holds no separator and does
      not end in `" -"` (that ending would merge with the separator that
      follows it into an earlier `" - "`). */
  predicate Unambiguous(name: string)
  {
    !Contains(name, Separator) && !(|name| >= 2 && name[|name| - 2..] == " -")
  }

  /** The separator, character by character. */
  lemma SeparatorAt(s: string, i: int)
    requires 0 <= i && i + 3 <= |s|
    ensures OccursAt(s, Separator, i) <==> s[i] == ' ' && s[i + 1] == '-' && s[i + 2] == ' '
  {
    assert Separator == [' ', '-', ' '];
    if s[i] == ' ' && s[i + 1] == '-' && s[i + 2] == ' ' {
      assert s[i..i + 3] == [' ', '-', ' '];
    }
  }

  /** The separator cannot start inside an unambiguous name. */
  lemma NoEarlySeparator(name: string, phone: string, i: int)
    requires Unambiguous(name) && 0 <= i < |name|
    ensures !OccursAt(FormatLabel(name, phone), Separator, i)
  {
    var line := FormatLabel(name, phone);
    var n := |name|;
    assert line[n] == ' ' && line[n + 1] == '-' && line[n + 2] == ' ';
    SeparatorAt(line, i);
    if i + 3 <= n {
      ContainsSpec(name, Separator);
      SeparatorAt(name, i);
      assert !OccursAt(name, Separator, i);
    } else if i == n - 2 {
      assert name[n - 2..] != [' ', '-'];
    }
  }

  /** An ambiguous name puts a separator inside itself. */
  lemma EarlySeparator(name: string, phone: string) returns (i: int)
    requires !Unambiguous(name)
    ensures 0 <= i < |name| && OccursAt(FormatLabel(name, phone), Separator, i)
  {
    var line := FormatLabel(name, phone);
    var n := |name|;
    assert line[..n] == name;
    ContainsSpec(name, Separator);
    if Contains(name, Separator) {
      i :| OccursAt(name, Separator, i);
      SeparatorAt(name, i);
      assert line[i] == name[i] && line[i + 1] == name[i + 1] && line[i + 2] == name[i + 2];
    } else {
      i := n - 2;
      assert name[n - 2..] == " -";
      assert name[n - 2] == ' ' && name[n - 1] == '-';
      assert line[n] == ' ';
    }
    SeparatorAt(line, i);
  }

  /** Reading the name back from a formatted label gives the name exactly
      when the name is unambiguous. */
  lemma LabelRoundTrip(name: string, phone: string)
    ensures NameOfLabel(FormatLabel(name, phone)) == name <==> Unambiguous(name)
  {
    var line := FormatLabel(name, phone);
    var n := |name|;
    assert line[n..n + 3] == Separator;
    assert OccursAt(line, Separator, n);
    var parsed := NameOfLabel(line);
    NameOfLabelSpec(line);
    if Unambiguous(name) {
      if |parsed| < n {
        NoEarlySeparator(name, phone, |parsed|);
      }
      assert parsed == line[..|parsed|] && name == line[..n];
    } else {
      var i := EarlySeparator(name, phone);
    }
  }
}
