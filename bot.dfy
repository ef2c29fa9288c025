/** bot.py: the first, dictionary-based bot. A module-level dictionary maps each
    name to one phone; handlers add, change and show entries; `input_error`
    turns the exceptions they raise into replies; `command_parcer` finds the
    command word in a line of input and cuts out its parameters. */
module Bot {
  import opened Wrappers
  import opened Builtins

  const EXIT_MESSAGE := "Good bye!"
  const GREETING := "Hi, what can I help you?"
  const ASK_NAME := "Please give me name"
  const ASK_PHONE := "Please give me phone number"
  const ALREADY_EXISTS := "A contact with the sanme name already exists!"
  /** The reply to a KeyError; the source's line continuation inside the literal
      keeps the next line's 24 leading spaces. */
  const NO_CONTACT := "There is no contact with such name. " + Spaces(24)
                      + "Use 'show all' command to view your contact list"

  function Added(name: string): string {
    "A contact " + name + " was successfully added!"
  }

  function Changed(name: string, oldPhone: string, newPhone: string): string {
    name + "'s phone was changed from " + oldPhone + " to " + newPhone
  }

  /** `input_error`: a TypeError becomes a request for the missing argument (the
      name when the handler got no argument at all, the phone otherwise), a
      KeyError becomes the "no contact" reply, and any other exception passes
      through unchanged. */
  function InputError(call: Call, argCount: nat): (r: Result<string, Exception>)
    ensures call.Returned? ==> r == Success(call.message)
    ensures call == Raised(TypeError) ==> r == Success(if argCount == 0 then ASK_NAME else ASK_PHONE)
    ensures call == Raised(KeyError) ==> r == Success(NO_CONTACT)
    ensures r.Failure? <==> call.Raised? && call.exception != TypeError && call.exception != KeyError
    ensures r.Failure? ==> r.error == call.exception
  {
    match call
    case Returned(m) => Success(m)
    case Raised(TypeError) => Success(if argCount == 0 then ASK_NAME else ASK_PHONE)
    case Raised(KeyError) => Success(NO_CONTACT)
    case Raised(e) => Failure(e)
  }

  // ---------------------------------------------------------------------------
  // The contact dictionary and its handlers

  /** The module-level `contacts` dictionary; `names` is its insertion order. */
  class Contacts {
    var names: seq<string>
    var phones: map<string, string>

    ghost predicate Valid()
      reads this
    {
      Distinct(names) && forall k :: k in phones <==> k in names
    }

    constructor ()
      ensures Valid() && names == [] && phones == map[]
    {
      names := [];
      phones := map[];
    }

    /** The phone of each name, in insertion order. */
    function PhoneList(): (ps: seq<string>)
      requires Valid()
      reads this
      ensures |ps| == |names| && forall k :: 0 <= k < |names| ==> ps[k] == phones[names[k]]
    {
      seq(|names|, k requires 0 <= k < |names| && Valid() reads this => phones[names[k]])
    }

    /** `add_contact(name, phone)`: an existing name is refused and nothing
        changes; otherwise the name is added last with its phone. */
    method AddContact(name: string, phone: string) returns (message: string)
      requires Valid()
      modifies this
      ensures Valid()
      ensures name in old(phones) ==> message == ALREADY_EXISTS && phones == old(phones) && names == old(names)
      ensures name !in old(phones) ==>
                message == Added(name) && phones == old(phones)[name := phone] && names == old(names) + [name]
    {
      if name in phones {
        message := ALREADY_EXISTS;
      } else {
        phones := phones[name := phone];
        names := names + [name];
        message := Added(name);
      }
    }

    /** `change_contact(name, phone)`: replaces only that name's phone, in place,
        and reports the old and new phone; an absent name raises a KeyError,
        which the decorator turns into the "no contact" reply. */
    method ChangeContact(name: string, phone: string) returns (message: string)
      requires Valid()
      modifies this
      ensures Valid() && names == old(names)
      ensures name !in old(phones) ==> message == NO_CONTACT && phones == old(phones)
      ensures name in old(phones) ==>
                message == Changed(name, old(phones)[name], phone) && phones == old(phones)[name := phone]
    {
      var call: Call;
      if name !in phones {
        call := Raised(KeyError);
      } else {
        var oldPhone := phones[name];
        phones := phones[name := phone];
        call := Returned(Changed(name, oldPhone, phone));
      }
      var r := InputError(call, 2);
      message := r.value;
    }

    /** `show_phone(name)`: the stored phone, or the "no contact" reply. */
    function ShowPhone(name: string): (message: string)
      reads this
      ensures name in phones ==> message == phones[name]
      ensures name !in phones ==> message == NO_CONTACT
    {
      var call := if name in phones then Returned(phones[name]) else Raised(KeyError);
      InputError(call, 1).value
    }

    /** `handler(*args)` for a handler of `HANDLER_DICT`: a call with the wrong
        number of arguments raises a TypeError before the body runs, which the
        decorated handlers turn into a request for a name or a phone and the
        others let escape; a call with the right number runs the handler. */
    method Invoke(action: Action, args: seq<string>) returns (r: Result<string, Exception>)
      requires Valid()
      modifies this
      ensures Valid()
      ensures |args| != Arity(action) ==> names == old(names) && phones == old(phones)
      ensures |args| != Arity(action) && Decorated(action) ==>
                r == Success(if |args| == 0 then ASK_NAME else ASK_PHONE)
      ensures |args| != Arity(action) && !Decorated(action) ==> r == Failure(TypeError)
      ensures |args| == Arity(action) && !action.AddContact? && !action.ChangeContact? ==>
                names == old(names) && phones == old(phones)
      ensures |args| == Arity(action) && action.ShowPhone? ==> r == Success(old(ShowPhone(args[0])))
      ensures |args| == Arity(action) && action.StartBot? ==> r == Success(GREETING)
      ensures |args| == Arity(action) && action.FinishBot? ==> r == Success(EXIT_MESSAGE)
      ensures |args| == Arity(action) && action.ShowAllContacts? ==> r == Success(Table(names, PhoneList()))
      ensures |args| == Arity(action) && action.AddContact? ==>
                var (name, phone) := (args[0], args[1]);
                && r == Success(if name in old(phones) then ALREADY_EXISTS else Added(name))
                && phones == (if name in old(phones) then old(phones) else old(phones)[name := phone])
                && names == (if name in old(phones) then old(names) else old(names) + [name])
      ensures |args| == Arity(action) && action.ChangeContact? ==>
                var (name, phone) := (args[0], args[1]);
                && r == Success(if name in old(phones) then Changed(name, old(phones)[name], phone) else NO_CONTACT)
                && phones == (if name in old(phones) then old(phones)[name := phone] else old(phones))
                && names == old(names)
    {
      if |args| != Arity(action) {
        if Decorated(action) {
          return InputError(Raised(TypeError), |args|);
        }
        return Failure(TypeError);
      }
      if action.StartBot? {
        r := Success(GREETING);
      } else if action.AddContact? {
        var m := AddContact(args[0], args[1]);
        r := Success(m);
      } else if action.ChangeContact? {
        var m := ChangeContact(args[0], args[1]);
        r := Success(m);
      } else if action.ShowPhone? {
        r := Success(ShowPhone(args[0]));
      } else if action.ShowAllContacts? {
        var m := ShowAllContacts();
        r := Success(m);
      } else {
        r := Success(EXIT_MESSAGE);
      }
    }

    /** `show_all_contacts()`: the table of all contacts in insertion order. */
    method ShowAllContacts() returns (message: string)
      requires Valid()
      ensures message == Table(names, PhoneList())
    {
      message := RenderTable(names, PhoneList());
    }
  }

  // ---------------------------------------------------------------------------
  // The table

  function Header(nameWidth: int, phoneWidth: int): string {
    "|" + Center("Name", nameWidth) + "|" + Center("Phone", phoneWidth) + "|\n"
  }

  function Row(name: string, phone: string, nameWidth: int, phoneWidth: int): string {
    "|" + LJust(name, nameWidth) + "|" + LJust(phone, phoneWidth) + "|\n"
  }

  function Rows(names: seq<string>, phones: seq<string>, nameWidth: int, phoneWidth: int): (rs: seq<string>)
    requires |names| == |phones|
    ensures |rs| == |names|
    ensures forall k :: 0 <= k < |names| ==> rs[k] == Row(names[k], phones[k], nameWidth, phoneWidth)
  {
    seq(|names|, k requires 0 <= k < |names| => Row(names[k], phones[k], nameWidth, phoneWidth))
  }

  /** The loops of `show_all_contacts` over the `(name, phone)` items: the
      running column widths first, then the header and one row per item. */
  method RenderTable(names: seq<string>, phones: seq<string>) returns (message: string)
    requires |names| == |phones|
    ensures message == Table(names, phones)
  {
    var nameWidth, phoneWidth := 10, 10;
    var i := 0;
    while i < |names|
      invariant 0 <= i <= |names|
      invariant Widest(names[i..], nameWidth) == Widest(names, 10)
      invariant Widest(phones[i..], phoneWidth) == Widest(phones, 10)
    {
      WidestStep(names, i, nameWidth);
      WidestStep(phones, i, phoneWidth);
      nameWidth := Max(|names[i]|, nameWidth);
      phoneWidth := Max(|phones[i]|, phoneWidth);
      i := i + 1;
    }
    assert names[i..] == [] && phones[i..] == [];
    ghost var lines := Lines(names, phones);
    message := Header(nameWidth, phoneWidth);
    assert message == Concat(lines[..1]) by {
      LinesAt(names, phones, 0);
      ConcatPrefix(lines, 0);
    }
    i := 0;
    while i < |names|
      invariant 0 <= i <= |names|
      invariant message == Concat(lines[..i + 1])
    {
      assert message + Row(names[i], phones[i], nameWidth, phoneWidth) == Concat(lines[..i + 2]) by {
        LinesAt(names, phones, i + 1);
        ConcatPrefix(lines, i + 1);
      }
      message := message + Row(names[i], phones[i], nameWidth, phoneWidth);
      i := i + 1;
    }
    assert lines[..i + 1] == lines;
  }

  /** The lines of the table: a header, then one row per contact in order, the
      name column as wide as the longest name and at least 10, the phone
      column likewise. */
  function Lines(names: seq<string>, phones: seq<string>): (lines: seq<string>)
    requires |names| == |phones|
    ensures |lines| == |names| + 1
  {
    var nameWidth, phoneWidth := Widest(names, 10), Widest(phones, 10);
    [Header(nameWidth, phoneWidth)] + Rows(names, phones, nameWidth, phoneWidth)
  }

  lemma LinesAt(names: seq<string>, phones: seq<string>, j: nat)
    requires |names| == |phones| && j <= |names|
    ensures var nameWidth, phoneWidth := Widest(names, 10), Widest(phones, 10);
            Lines(names, phones)[j]
            == if j == 0 then Header(nameWidth, phoneWidth) else Row(names[j - 1], phones[j - 1], nameWidth, phoneWidth)
  {
  }

  function Table(names: seq<string>, phones: seq<string>): string
    requires |names| == |phones|
  {
    Concat(Lines(names, phones))
  }

  lemma RowWidth(name: string, phone: string, nameWidth: int, phoneWidth: int)
    requires |name| <= nameWidth && |phone| <= phoneWidth
    ensures |Row(name, phone, nameWidth, phoneWidth)| == nameWidth + phoneWidth + 4
  {
  }

  lemma HeaderWidth(nameWidth: int, phoneWidth: int)
    requires 5 <= nameWidth && 5 <= phoneWidth
    ensures |Header(nameWidth, phoneWidth)| == nameWidth + phoneWidth + 4
  {
  }

  /** Every line of the table, header and rows alike, has the same width: both
      column widths plus three bars and the newline. Together with
      `ConcatFixedWidth` this places row `k` at characters `(k + 1) * width` to
      `(k + 2) * width` of the table. */
  lemma LinesWidth(names: seq<string>, phones: seq<string>)
    requires |names| == |phones|
    ensures var lines := Lines(names, phones);
            forall j :: 0 <= j < |lines| ==> |lines[j]| == Widest(names, 10) + Widest(phones, 10) + 4
  {
    var nameWidth, phoneWidth := Widest(names, 10), Widest(phones, 10);
    var lines := Lines(names, phones);
    forall j | 0 <= j < |lines| ensures |lines[j]| == nameWidth + phoneWidth + 4 {
      if j == 0 {
        HeaderWidth(nameWidth, phoneWidth);
      } else {
        assert lines[j] == Row(names[j - 1], phones[j - 1], nameWidth, phoneWidth);
        RowWidth(names[j - 1], phones[j - 1], nameWidth, phoneWidth);
      }
    }
  }

  /** A row holds the name left-aligned in its column and the phone in its own. */
  lemma RowCells(name: string, phone: string, nameWidth: int, phoneWidth: int)
    requires |name| <= nameWidth && |phone| <= phoneWidth
    ensures var row := Row(name, phone, nameWidth, phoneWidth);
            && row[0] == '|' && row[1..1 + |name|] == name
            && (forall i :: 1 + |name| <= i < 1 + nameWidth ==> row[i] == ' ')
            && row[1 + nameWidth] == '|'
            && row[2 + nameWidth..2 + nameWidth + |phone|] == phone
            && (forall i :: 2 + nameWidth + |phone| <= i < 2 + nameWidth + phoneWidth ==> row[i] == ' ')
            && row[2 + nameWidth + phoneWidth..] == "|\n"
  {
    var l, r := LJust(name, nameWidth), LJust(phone, phoneWidth);
    var row := Row(name, phone, nameWidth, phoneWidth);
    assert row == "|" + l + "|" + r + "|\n";
    assert row[1..1 + nameWidth] == l;
    assert row[2 + nameWidth..2 + nameWidth + phoneWidth] == r;
  }

  // ---------------------------------------------------------------------------
  // Parsing a command line

  /** The handler functions of `HANDLER_DICT`. */
  datatype Action = StartBot | AddContact | ChangeContact | ShowPhone | ShowAllContacts | FinishBot

  /** `HANDLER_DICT`, in its order: the command words and their handlers. */
  const HANDLER_DICT: seq<(string, Action)> := [
    ("hello", StartBot), ("add", AddContact), ("change", ChangeContact), ("phone", ShowPhone),
    ("show all", ShowAllContacts), ("exit", FinishBot), ("good bye", FinishBot), ("close", FinishBot)
  ]

  /** The number of positional parameters each handler takes. */
  function Arity(action: Action): nat {
    match action
    case AddContact => 2
    case ChangeContact => 2
    case ShowPhone => 1
    case _ => 0
  }

  /** The handlers wrapped by `input_error`. */
  predicate Decorated(action: Action) {
    action.AddContact? || action.ChangeContact? || action.ShowPhone?
  }

  /** The second result of `command_parcer`: `None`, a list, or a string. */
  datatype Params = NoParams | Words(words: seq<string>) | Word(word: string)

  /** The position in `HANDLER_DICT` of the first command word that occurs
      anywhere in `message`, or -1. */
  function FirstCommand(message: string, from: nat := 0): (k: int)
    requires from <= |HANDLER_DICT|
    ensures k == -1 || from <= k < |HANDLER_DICT|
    ensures k == -1 <==> forall j :: from <= j < |HANDLER_DICT| ==> Find(message, HANDLER_DICT[j].0) == -1
    ensures 0 <= k ==> Find(message, HANDLER_DICT[k].0) != -1
    ensures 0 <= k ==> forall j :: from <= j < k ==> Find(message, HANDLER_DICT[j].0) == -1
    decreases |HANDLER_DICT| - from
  {
    if from == |HANDLER_DICT| then -1
    else if Find(message, HANDLER_DICT[from].0) != -1 then from
    else FirstCommand(message, from + 1)
  }

  /** The parameters `command_parcer` cuts out for command word `cmd` found at
      `pos`: the text starting one character after the word, split at every
      space; its first two pieces for "add" and "change", the first piece alone
      (a string, not a list) for "phone", and none for the other commands. */
  function ParamsFor(cmd: string, input: string, pos: nat): (params: Params)
    ensures params.Words? ==> |params.words| <= 2 && forall k :: 0 <= k < |params.words| ==> ' ' !in params.words[k]
    ensures params.Word? ==> ' ' !in params.word
  {
    var pieces := Split(Drop(input, pos + |cmd| + 1), ' ');
    if cmd == "add" || cmd == "change" then Words(Take(pieces, 2))
    else if cmd == "phone" then Word(pieces[0])
    else NoParams
  }

  /** `command_parcer(input)`: finds the first command word, in `HANDLER_DICT`
      order, that occurs in the lower-cased input and returns its handler and
      parameters; when none occurs, neither. */
  method ParseCommand(input: string) returns (handler: Option<Action>, params: Params)
    ensures var message := Lower(input);
            var k := FirstCommand(message);
            && (k == -1 ==> handler == None && params == NoParams)
            && (k != -1 ==> handler == Some(HANDLER_DICT[k].1)
                            && params == ParamsFor(HANDLER_DICT[k].0, input, Find(message, HANDLER_DICT[k].0)))
  {
    var message := Lower(input);
    handler, params := None, NoParams;
    var k := 0;
    while k < |HANDLER_DICT|
      invariant 0 <= k <= |HANDLER_DICT|
      invariant FirstCommand(message) == FirstCommand(message, k)
    {
      var (cmd, fnc) := HANDLER_DICT[k];
      var pos := Find(message, cmd);
      if pos != -1 {
        var rest := Drop(input, pos + |cmd| + 1);
        if cmd == "add" || cmd == "change" {
          params := Words(Take(Split(rest, ' '), 2));
        }
        if cmd == "phone" {
          params := Word(Split(rest, ' ')[0]);
        }
        handler := Some(fnc);
        assert params == ParamsFor(cmd, input, pos);
        return;
      }
      k := k + 1;
    }
  }

  /** For "add" and "change" the parameters are the leading pieces, at most two,
      of the text after the command word; when that text holds at most one
      space they rebuild it exactly. "phone" gets the first piece, and every
      other command none. */
  lemma ParamsAreLeadingPieces(cmd: string, input: string, pos: nat)
    ensures var rest := Drop(input, pos + |cmd| + 1);
            var pieces := Split(rest, ' ');
            match ParamsFor(cmd, input, pos)
            case Words(ws) =>
              && (cmd == "add" || cmd == "change")
              && |ws| == (if |pieces| < 2 then |pieces| else 2) && ws == pieces[..|ws|]
              && (|pieces| <= 2 ==> Join(" ", ws) == rest)
            case Word(w) => cmd == "phone" && w == pieces[0] && ' ' !in w
            case NoParams => cmd != "add" && cmd != "change" && cmd != "phone"
  {
    var rest := Drop(input, pos + |cmd| + 1);
    JoinSplit(rest, ' ');
  }

  /** The positional arguments of `handler(*params)`: no arguments for `None`,
      one per element of a list, and one per character of a string. */
  function Arguments(params: Params): (args: seq<string>)
    ensures params.Words? ==> args == params.words
    ensures params.Word? ==> |args| == |params.word| && forall i :: 0 <= i < |args| ==> args[i] == [params.word[i]]
    ensures params.NoParams? ==> args == []
  {
    match params
    case NoParams => []
    case Words(ws) => ws
    case Word(w) => seq(|w|, i requires 0 <= i < |w| => [w[i]])
  }

  /** As written, "phone" yields the first piece as a string rather than a list,
      so spreading it passes one argument per character: for "phone " followed
      by a name, once "phone" is the command found (as for "phone Bob", by
      `LowerPhoneBob` and `PhoneBobCommand`), the lookup gets as many arguments
      as the name has characters. Any name but a one-character one
      raises a TypeError, and the reply asks for a phone number (for a name,
      when the name is empty) instead of showing the phone. */
  lemma PhoneParamsSpreadAsWritten(name: string)
    requires ' ' !in name
    ensures HANDLER_DICT[3] == ("phone", ShowPhone)
    ensures Find(Lower("phone " + name), "phone") == 0
    ensures ParamsFor("phone", "phone " + name, 0) == Word(name)
    ensures |Arguments(Word(name))| == |name|
    ensures forall i :: 0 <= i < |name| ==> Arguments(Word(name))[i] == [name[i]]
    ensures |name| != Arity(ShowPhone) ==>
              InputError(Raised(TypeError), |name|) == Success(if name == "" then ASK_NAME else ASK_PHONE)
  {
    var input := "phone " + name;
    assert Find(Lower(input), "phone") == 0 by {
      assert Lower(input)[..5] == "phone";
      assert OccursAt(Lower(input), "phone", 0);
    }
    assert ParamsFor("phone", input, 0) == Word(name) by {
      assert Drop(input, 6) == name;
      assert Split(name, ' ') == [name] by {
        assert IndexOf(name, ' ') == -1;
      }
    }
  }

  lemma LowerPhoneBob()
    ensures Lower("phone Bob") == "phone bob"
  {
  }

  /** "phone bob" selects the "phone" entry, found at its very start. */
  lemma PhoneBobCommand()
    ensures FirstCommand(Lower("phone Bob")) == 3 && Find(Lower("phone Bob"), "phone") == 0
  {
    LowerPhoneBob();
    PhoneStartsPhoneBob();
    NoEarlierCommandInPhoneBob();
    PhoneIsFirst("phone bob");
  }

  /** "phone" is the command found when it occurs and none of the three
      commands before it does. */
  lemma PhoneIsFirst(message: string)
    requires Find(message, "hello") == -1 && Find(message, "add") == -1 && Find(message, "change") == -1
    requires Find(message, "phone") != -1
    ensures FirstCommand(message) == 3
  {
    assert FirstCommand(message, 3) == 3;
  }

  lemma PhoneStartsPhoneBob()
    ensures Find("phone bob", "phone") == 0
  {
    assert OccursAt("phone bob", "phone", 0);
  }

  lemma NoEarlierCommandInPhoneBob()
    ensures Find("phone bob", "hello") == -1
    ensures Find("phone bob", "add") == -1
    ensures Find("phone bob", "change") == -1
  {
    AbsentByChar("phone bob", "hello", 2);
    AbsentByChar("phone bob", "add", 0);
    AbsentByChar("phone bob", "change", 0);
  }

  /** The evidently intended parameters: as written for every command except
      "phone", which gets its first piece as a one-element list. */
  function IntendedParams(cmd: string, input: string, pos: nat): (params: Params)
    ensures !params.Word?
    ensures cmd != "phone" ==> params == ParamsFor(cmd, input, pos)
    ensures cmd == "phone" ==> params == Words([ParamsFor(cmd, input, pos).word])
  {
    if cmd == "phone" then Words([Split(Drop(input, pos + |cmd| + 1), ' ')[0]])
    else ParamsFor(cmd, input, pos)
  }

  /** With the intended parameters "phone" always calls the lookup with exactly
      one argument, the first piece, whatever its length. */
  lemma IntendedPhoneParamsFit(input: string, pos: nat)
    ensures var args := Arguments(IntendedParams("phone", input, pos));
            |args| == Arity(ShowPhone) && args[0] == Split(Drop(input, pos + 6), ' ')[0]
  {
  }
}
