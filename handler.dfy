/** handler.py: the later bot, whose contacts live in an `AddressBook`. Only
    the parts that work with the address book as it is are modelled: the table
    of all contacts, the error wrapper, and the greeting and farewell. */
module Handlers {
  import opened Wrappers
  import opened Builtins
  import opened Book

  const GREETING := "Hi, what can I help you?"
  const EXIT_MESSAGE := "Good bye!"
  const LESS_ARGUMENTS := "Less arguments given."
  /** Two adjacent literals, so no spaces are carried over from the next line. */
  const NO_CONTACT := "There is no contact with such name. Use 'show all' command to view your contact list."

  /** The phone column is always 15 wide. */
  const PHONE_WIDTH := 15

  /** `start_bot()`. */
  function StartBot(): (message: string)
    ensures message == "Hi, what can I help you?"
  {
    GREETING
  }

  /** `finish_bot()`. */
  function FinishBot(): (message: string)
    ensures message == "Good bye!"
  {
    EXIT_MESSAGE
  }

  /** `input_error`: a TypeError and a KeyError become replies. For any other
      exception Python goes on to evaluate the next `except` clause, whose
      exception class `NameExistsError` is defined nowhere, so a NameError
      escapes in place of the original exception. */
  function InputError(call: Call): (r: Result<string, Exception>)
    ensures call.Returned? ==> r == Success(call.message)
    ensures call == Raised(TypeError) ==> r == Success(LESS_ARGUMENTS)
    ensures call == Raised(KeyError) ==> r == Success(NO_CONTACT)
    ensures r.Failure? <==> call.Raised? && call.exception != TypeError && call.exception != KeyError
    ensures r.Failure? ==> r.error == NameError
  {
    match call
    case Returned(m) => Success(m)
    case Raised(TypeError) => Success(LESS_ARGUMENTS)
    case Raised(KeyError) => Success(NO_CONTACT)
    case Raised(_) => Failure(NameError)
  }

  // ---------------------------------------------------------------------------
  // The table of contacts

  /** The header line. */
  function Header(nameWidth: int): string {
    "|" + Center("Name", nameWidth) + "|" + Center("Phone", PHONE_WIDTH) + "|\n"
  }

  /** The name cell that opens a contact's first line. */
  function Lead(name: string, nameWidth: int): string {
    "|" + LJust(name, nameWidth) + "|"
  }

  /** A phone cell closing a line. */
  function Cell(phone: string): string {
    LJust(phone, PHONE_WIDTH) + "|\n"
  }

  /** The blank name cell that opens each further line of a contact. */
  function Blank(nameWidth: nat): (r: string)
    ensures |r| == nameWidth + 2
  {
    "|" + LJust("", nameWidth) + "|"
  }

  /** The lines of one contact: one line with an empty phone cell when it has no
      phones; otherwise one line per phone, in order, the first carrying the
      name and every later one a blank name cell. */
  function ContactLines(name: string, phones: seq<string>, nameWidth: nat): (lines: seq<string>)
    ensures |lines| == if phones == [] then 1 else |phones|
  {
    if phones == [] then [Lead(name, nameWidth) + Spaces(PHONE_WIDTH) + "|\n"]
    else seq(|phones|, k requires 0 <= k < |phones| =>
                         (if k == 0 then Lead(name, nameWidth) else Blank(nameWidth)) + Cell(phones[k]))
  }

  /** A contact's name and its phone numbers, in list order. */
  type Entry = (string, seq<string>)

  function Names(entries: seq<Entry>): (names: seq<string>)
    ensures |names| == |entries| && forall i :: 0 <= i < |entries| ==> names[i] == entries[i].0
  {
    seq(|entries|, i requires 0 <= i < |entries| => entries[i].0)
  }

  /** The text of each contact. */
  function Blocks(entries: seq<Entry>, nameWidth: nat): (blocks: seq<string>)
    ensures |blocks| == |entries|
    ensures forall i :: 0 <= i < |entries| ==> blocks[i] == Concat(ContactLines(entries[i].0, entries[i].1, nameWidth))
  {
    seq(|entries|, i requires 0 <= i < |entries| => Concat(ContactLines(entries[i].0, entries[i].1, nameWidth)))
  }

  /** The table: the header, then each contact's lines in order, with the name
      column as wide as the longest name and at least 10. */
  function Table(entries: seq<Entry>): string {
    var nameWidth := Widest(Names(entries), 10);
    Concat([Header(nameWidth)] + Blocks(entries, nameWidth))
  }

  /** What the loop over a contact's phones leaves behind the name cell before
      the trim: each phone cell followed by a blank name cell. */
  function Trail(phones: seq<string>, nameWidth: nat): string {
    if phones == [] then ""
    else Trail(phones[..|phones| - 1], nameWidth) + (Cell(phones[|phones| - 1]) + Blank(nameWidth))
  }

  lemma TrailStep(phones: seq<string>, j: nat, nameWidth: nat)
    requires j < |phones|
    ensures Trail(phones[..j + 1], nameWidth) == Trail(phones[..j], nameWidth) + (Cell(phones[j]) + Blank(nameWidth))
  {
    assert phones[..j + 1][..j] == phones[..j];
  }

  /** One more phone adds one line: its phone cell after a blank name cell. */
  lemma ContactLinesSnoc(name: string, phones: seq<string>, nameWidth: nat)
    requires |phones| >= 2
    ensures var n := |phones|;
            ContactLines(name, phones, nameWidth)
            == ContactLines(name, phones[..n - 1], nameWidth) + [Blank(nameWidth) + Cell(phones[n - 1])]
  {
    var n := |phones|;
    var lines, initLines := ContactLines(name, phones, nameWidth), ContactLines(name, phones[..n - 1], nameWidth);
    assert lines == initLines + [lines[n - 1]] by {
      forall k | 0 <= k < n - 1 ensures lines[k] == initLines[k] {
        assert phones[..n - 1][k] == phones[k];
      }
    }
  }

  /** The loop's output is the contact's lines plus one dangling blank name cell,
      exactly what the trim of `name_width + 2` characters removes. */
  lemma {:induction false} TrailIsLinesPlusBlank(name: string, phones: seq<string>, nameWidth: nat)
    requires phones != []
    ensures Lead(name, nameWidth) + Trail(phones, nameWidth)
            == Concat(ContactLines(name, phones, nameWidth)) + Blank(nameWidth)
    decreases |phones|
  {
    var n := |phones|;
    if n == 1 {
      OnePhoneTrail(name, phones, nameWidth);
    } else {
      var init := phones[..n - 1];
      TrailIsLinesPlusBlank(name, init, nameWidth);
      ContactLinesSnoc(name, phones, nameWidth);
      ConcatAppend(ContactLines(name, init, nameWidth), Blank(nameWidth) + Cell(phones[n - 1]));
      RegroupTrail(Lead(name, nameWidth), Trail(init, nameWidth), Concat(ContactLines(name, init, nameWidth)),
                   Cell(phones[n - 1]), Blank(nameWidth));
    }
  }

  /** The base case: a single phone makes a single line. */
  lemma OnePhoneTrail(name: string, phones: seq<string>, nameWidth: nat)
    requires |phones| == 1
    ensures Lead(name, nameWidth) + Trail(phones, nameWidth)
            == Concat(ContactLines(name, phones, nameWidth)) + Blank(nameWidth)
  {
    var lead, cell, blank := Lead(name, nameWidth), Cell(phones[0]), Blank(nameWidth);
    assert Trail(phones, nameWidth) == cell + blank by {
      assert phones[..0] == [];
    }
    assert Concat(ContactLines(name, phones, nameWidth)) == lead + cell by {
      assert ContactLines(name, phones, nameWidth) == [lead + cell];
      ConcatAppend([], lead + cell);
    }
    AppendAssoc(lead, cell, blank);
  }

  /** The inductive step, as a regrouping of the same pieces. */
  lemma RegroupTrail(lead: string, trail: string, before: string, cell: string, blank: string)
    requires lead + trail == before + blank
    ensures lead + (trail + (cell + blank)) == (before + (blank + cell)) + blank
  {
    calc {
      lead + (trail + (cell + blank));
      (lead + trail) + (cell + blank);
      (before + blank) + (cell + blank);
      (before + (blank + cell)) + blank;
    }
  }

  /** A contact without phones adds its one line. */
  lemma NoPhonesLine(before: string, name: string, nameWidth: nat)
    ensures (before + Lead(name, nameWidth)) + (LJust("", PHONE_WIDTH) + "|\n")
            == before + Concat(ContactLines(name, [], nameWidth))
  {
    var line := Lead(name, nameWidth) + Spaces(PHONE_WIDTH) + "|\n";
    assert LJust("", PHONE_WIDTH) == Spaces(PHONE_WIDTH);
    assert Concat([line]) == line + Concat([]);
  }

  lemma AppendAssoc(a: string, b: string, c: string)
    ensures a + b + c == a + (b + c)
  {
  }

  /** Trimming the dangling blank cell. */
  lemma TrimBlank(before: string, lines: string, nameWidth: nat)
    ensures var text := before + lines + Blank(nameWidth);
            |text| >= nameWidth + 2 && text[..|text| - nameWidth - 2] == before + lines
  {
    var text := before + lines + Blank(nameWidth);
    assert text == (before + lines) + Blank(nameWidth);
  }

  /** The phones of the records. */
  function PhoneSet(records: seq<Record>): set<object>
    reads records
  {
    set i, j | 0 <= i < |records| && 0 <= j < |records[i].phones| :: records[i].phones[j]
  }

  /** The records' names and phone numbers, in order. */
  function Entries(records: seq<Record>): (entries: seq<Entry>)
    reads records, PhoneSet(records)
    ensures |entries| == |records|
    ensures forall i :: 0 <= i < |records| ==> entries[i] == (records[i].name.value, records[i].Values())
  {
    if records == [] then []
    else
      var init, last := records[..|records| - 1], records[|records| - 1];
      var entries := Entries(init) + [(last.name.value, last.Values())];
      assert forall i :: 0 <= i < |init| ==> records[i] == init[i];
      entries
  }

  /** `show_all_contacts()` on the book's contacts, in insertion order. */
  method ShowAllContacts(book: AddressBook) returns (message: string)
    requires book.Valid()
    ensures message == Table(Entries(book.Records()))
  {
    ghost var records := book.Records();
    var entries := Entries(book.Records());
    message := RenderTable(entries);
    // The rendering allocates nothing the records or their phones could be.
    assert book.Records() == records;
    assert Entries(book.Records()) == entries;
  }

  /** The loops of `show_all_contacts` over the contacts' names and phones: the
      name column width is a running maximum over the names; then the header,
      and for each contact its name cell followed by its phones, one per line
      with a blank name cell before each next one, the dangling blank cell
      trimmed; a contact without phones gets an empty phone cell. */
  method RenderTable(entries: seq<Entry>) returns (message: string)
    ensures message == Table(entries)
  {
    ghost var names := Names(entries);
    var nameWidth := 10;
    var i := 0;
    while i < |entries|
      invariant 0 <= i <= |entries|
      invariant nameWidth >= 10
      invariant Widest(names[i..], nameWidth) == Widest(names, 10)
    {
      WidestStep(names, i, nameWidth);
      nameWidth := Max(|entries[i].0|, nameWidth);
      i := i + 1;
    }
    assert names[i..] == [];
    ghost var lines := [Header(nameWidth)] + Blocks(entries, nameWidth);
    message := Header(nameWidth);
    ConcatPrefix(lines, 0);
    i := 0;
    while i < |entries|
      invariant 0 <= i <= |entries|
      invariant message == Concat(lines[..i + 1])
    {
      var (name, phones) := entries[i];
      message := AppendContact(message, name, phones, nameWidth);
      ConcatPrefix(lines, i + 1);
      i := i + 1;
    }
    assert lines[..i + 1] == lines;
  }

  /** The body of the outer loop for one contact. */
  method AppendContact(before: string, name: string, phones: seq<string>, nameWidth: nat) returns (message: string)
    ensures message == before + Concat(ContactLines(name, phones, nameWidth))
  {
    message := before + Lead(name, nameWidth);
    if phones == [] {
      message := message + (LJust("", PHONE_WIDTH) + "|\n");
      NoPhonesLine(before, name, nameWidth);
      return;
    }
    ghost var head := message;
    var j := 0;
    while j < |phones|
      invariant 0 <= j <= |phones|
      invariant message == head + Trail(phones[..j], nameWidth)
    {
      TrailStep(phones, j, nameWidth);
      AppendAssoc(head, Trail(phones[..j], nameWidth), Cell(phones[j]) + Blank(nameWidth));
      message := message + (Cell(phones[j]) + Blank(nameWidth));
      j := j + 1;
    }
    assert phones[..j] == phones;
    TrimTrail(before, name, phones, nameWidth);
    message := message[..|message| - nameWidth - 2];
  }

  /** After the last phone, cutting `name_width + 2` characters leaves exactly the
      contact's lines. */
  lemma TrimTrail(before: string, name: string, phones: seq<string>, nameWidth: nat)
    requires phones != []
    ensures var text := before + Lead(name, nameWidth) + Trail(phones, nameWidth);
            |text| >= nameWidth + 2
            && text[..|text| - nameWidth - 2] == before + Concat(ContactLines(name, phones, nameWidth))
  {
    var lead, trail, lines, blank := Lead(name, nameWidth), Trail(phones, nameWidth),
      Concat(ContactLines(name, phones, nameWidth)), Blank(nameWidth);
    TrailIsLinesPlusBlank(name, phones, nameWidth);
    AppendAssoc(before, lead, trail);
    AppendAssoc(before, lines, blank);
    TrimBlank(before, lines, nameWidth);
  }

  // ---------------------------------------------------------------------------
  // Layout

  /** Every line of a contact is as wide as the header, `name_width + 18`
      characters before its newline, when the name and the phones fit their
      columns. */
  lemma ContactLineWidths(name: string, phones: seq<string>, nameWidth: nat)
    requires |name| <= nameWidth && forall k :: 0 <= k < |phones| ==> |phones[k]| <= PHONE_WIDTH
    ensures forall k :: 0 <= k < |ContactLines(name, phones, nameWidth)| ==>
              |ContactLines(name, phones, nameWidth)[k]| == nameWidth + PHONE_WIDTH + 4
    ensures nameWidth >= 5 ==> |Header(nameWidth)| == nameWidth + PHONE_WIDTH + 4
  {
  }

  /** Line `k` of a contact with phones holds its `k`-th phone, and the name
      cell only on the first line; a contact without phones has one line with
      an empty phone cell. */
  lemma ContactLineCells(name: string, phones: seq<string>, nameWidth: nat, k: nat)
    requires |name| <= nameWidth && k < |ContactLines(name, phones, nameWidth)|
    requires forall j :: 0 <= j < |phones| ==> |phones[j]| <= PHONE_WIDTH
    ensures var line := ContactLines(name, phones, nameWidth)[k];
            && line[..nameWidth + 2] == (if k == 0 then "|" + LJust(name, nameWidth) + "|" else "|" + Spaces(nameWidth) + "|")
            && line[nameWidth + 2..] == LJust(if phones == [] then "" else phones[k], PHONE_WIDTH) + "|\n"
  {
    var line := ContactLines(name, phones, nameWidth)[k];
    var head := if k == 0 then Lead(name, nameWidth) else Blank(nameWidth);
    assert LJust("", nameWidth) == Spaces(nameWidth);
    assert LJust("", PHONE_WIDTH) == Spaces(PHONE_WIDTH);
    if phones == [] {
      assert line == head + (Spaces(PHONE_WIDTH) + "|\n");
    } else {
      assert line == head + Cell(phones[k]);
    }
  }
}
