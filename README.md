# simple-bot-cli contact book, modelled in Dafny

A command-line assistant that keeps a contact book. This model covers the
pieces of it that hold logic:

- `address_book.py`:
  - a `Phone` field that checks every assignment of its value (ten ASCII
    digits);
  - a `Record` that owns an ordered list of phones and can add, find, remove
    and edit them;
  - an `AddressBook` that maps each unique name to its record.
- `bot.py`, the first bot. Contacts live in a module-level dictionary from
  name to phone. It has:
  - the `input_error` decorator that turns exceptions into replies;
  - the handlers `add_contact`, `change_contact`, `show_phone` and
    `show_all_contacts`;
  - `command_parcer`, which finds the first command word of `HANDLER_DICT`
    in a line of input and cuts out its parameters.
- `menu.py`: `Menu.navigate`, a case-insensitive lookup of a menu key. It
  renders that key's page and sets the `close` flag.
- `arg_handlers.py`: a chain of responsibility. The first handler whose key
  is in the argument dictionary validates and converts that argument. Every
  other handler passes the request down the chain, and the end of the chain
  answers `None`.
- `handler.py`, the later bot built on `AddressBook`: the table of all
  contacts, the error wrapper, and the greeting and farewell.

The Dafny modules are:

- `Wrappers`: `Option`, `Result` and `Outcome`.
- `Builtins`: the Python built-ins the code relies on, such as `str.find`,
  `str.split`, `str.join`, `str.center`, `str.ljust`, `str.lower`,
  `str.isdigit` and `list.remove`, with their properties.
- `Book`, `Bot`, `Menus`, `ArgHandlers` and `Handlers`: one module per
  source file.

Objects the source updates in place are classes: `Phone`, `Record`,
`AddressBook`, the bot's contact dictionary (`Bot.Contacts`), `Menu` and
the argument `Handler`. Loops in the source are methods with loop
invariants. Each of these methods is proved against a specification
function, and lemmas prove properties of those functions. Raised
exceptions are modelled as `Result`/`Outcome` values that name the
exception and its message.

## Model

| member | source | states |
|---|---|---|
| Book.Phone.SetValue | address_book.py:12-15 | Assigning a value succeeds exactly when it is ten digits. Otherwise it fails with `ValueError("Phone must contain 10 digits")` and the previous value stays. |
| Book.NewPhone | address_book.py:11-23 | `Phone(v)` yields a new valid phone holding `v` exactly when `v` is ten digits. Otherwise it raises the same `ValueError` and creates no phone. |
| Book.NewRecord | address_book.py:26-29 | `Record(name, phone="")` has a required name. It has no phones for the empty default and one phone for a valid number. An invalid non-empty phone makes the constructor raise. |
| Book.Record.RenderPhones | address_book.py:31-32 | `str(record)` is 24 fixed characters plus the name, followed by the phones. Phone `k` occupies the ten characters starting at offset `12*k`, in list order. The two characters between consecutive phones are "; ". There is no separator after the last phone, and the text has nothing else. |
| Book.Record.Render | address_book.py:31-32 | `str(record)` starts with "Contact name: ", the name and ", phones: ", and is exactly that text when the record has no phones. |
| Book.Record.FindPhone | address_book.py:34-43 | Returns the first phone in list order whose value equals `v`, and succeeds iff `v` is present. Otherwise it fails with `ValueError("Phone not found")`. |
| Book.Record.AddPhone | address_book.py:45-47 | A falsy argument changes nothing. A valid number is appended as exactly one new phone at the end, and duplicates are allowed. Earlier phones are untouched, and an invalid number raises with the list unchanged. |
| Book.Record.RemovePhone | address_book.py:49-52 | Removes exactly the first phone equal to `v`, and the others keep their order. The values become `RemoveFirst(old values, v)`, so on success their multiset loses exactly one `v`. An absent `v` raises "Phone not found" with the list unchanged. |
| Book.Record.Discard | address_book.py:52 | `list.remove(phone)` on a phone object of the list removes the object at that object's own position, because no phone object occurs twice. |
| Book.Record.EditPhone | address_book.py:55-58 | Changes only the value of the first phone equal to `old`, in place, so the list, its length and its positions are kept. It raises "Phone not found" for an absent `old`, and the ten-digit error for an invalid `new` with every value unchanged. |
| Book.AddressBook.AddRecord | address_book.py:61-64 | An existing name raises `ValueError("Record with name … is already exists")` and leaves the book unchanged. Otherwise the book gains exactly that key, mapped to the record, last in insertion order. |
| Book.AddressBook.Delete | address_book.py:66-68 | A present name is popped and its record returned. An absent name returns `None` and changes nothing. Afterwards the name is not in the book. |
| Book.AddressBook.Find | address_book.py:70-71 | An exact-key lookup that gives `None` when the name is absent. A found record carries that name. |
| Builtins.Widest | bot.py:64-69 | The running `max(len(x), width)` is at least the start width and at least every length. |
| Builtins.WidestAttained | bot.py:64-69 | The running maximum is the start width or one of the lengths, and never more. |
| Bot.InputError | bot.py:5-23 | A TypeError becomes "Please give me name" when no argument was passed, and "Please give me phone number" otherwise. A KeyError becomes the "no contact" reply. Any other exception escapes unchanged. |
| Bot.Contacts.AddContact | bot.py:32-42 | An existing name gets the "already exists" reply and the dictionary is unchanged. Otherwise the name is mapped to the phone, placed last in insertion order, and reported as added. |
| Bot.Contacts.ChangeContact | bot.py:44-51 | A present name has only its own entry replaced, and the reply reports the old and the new phone. An absent name raises KeyError, which `input_error` turns into the "no contact" reply, and nothing changes. |
| Bot.Contacts.ShowPhone | bot.py:53-57 | Returns the name's phone, or raises KeyError, which the decorator turns into the "no contact" reply. |
| Bot.Contacts.Invoke | bot.py:7-21 | A decorated handler called with the wrong number of arguments gets "Please give me name" for zero arguments and the phone request otherwise, and changes nothing. An undecorated one raises TypeError. With the right count, each handler has the effect and reply stated above, including the insertion order: an added name goes last, and a change keeps the order. |
| Bot.Contacts.ShowAllContacts | bot.py:59-76 | The reply is the table of the dictionary's entries in insertion order. |
| Bot.RenderTable | bot.py:64-76 | The two loops, the width loop and the row loop, produce exactly the header line followed by one row per contact. |
| Bot.LinesWidth | bot.py:71-74 | Every line of the table, header included, is `name_width + phone_width + 3` characters followed by `\n`. |
| Bot.RowCells | bot.py:74 | A row is `\|`, then the name padded with spaces to the name width, then `\|`, then the phone padded to the phone width, then `\|\n`. |
| Bot.FirstCommand | bot.py:102-105 | Finds the first key of `HANDLER_DICT`, in the dictionary's order, that occurs anywhere in the lower-cased text. It gives -1 iff no key occurs. |
| Bot.ParseCommand | bot.py:92-115 | Gives `(None, None)` when no command word occurs. Otherwise it gives the handler of the first command found, in `HANDLER_DICT` order, and that command's parameters cut from the original-case text. |
| Bot.ParamsFor | bot.py:106-111 | The parameters of a found command are pieces of the text split at spaces, so none of them holds a space: a list of at most two of them, a single string, or none (which command gets which is stated by `Bot.ParamsAreLeadingPieces`). |
| Bot.ParamsAreLeadingPieces | bot.py:106-111 | "add"/"change" take at most the first two space-separated pieces of the text that starts one character after the command word. "phone" takes only the first piece, as a string. Other commands take none. |
| Bot.Arguments | bot.py:130-133 | `handler(*params)` passes a list's items, and spreads a string into its characters. |
| Bot.PhoneParamsSpreadAsWritten | bot.py:109-111 | For "phone NAME", the parameter is the string `NAME`. It is spread into `len(NAME)` one-character arguments, so any name that is not one character long gets the argument-count reply instead of a lookup. |
| Bot.PhoneBobCommand | bot.py:83-90 | "phone Bob" lower-cases to "phone bob", in which "phone" is the first command of `HANDLER_DICT` found, and it is found at position 0. |
| Bot.PhoneIsFirst | bot.py:83-90 | When "hello", "add" and "change" are absent and "phone" occurs, the parser picks `show_phone`. |
| Bot.IntendedParams | bot.py:109-111 | Corrected parameters: every command that takes arguments passes a list. "phone" passes the one-element list of the first piece. |
| Bot.IntendedPhoneParamsFit | bot.py:109-111 | With the corrected parameters, "phone" always passes exactly the one argument `show_phone` takes, namely the first piece. |
| Menus.MatchIndex | menu.py:23-24 | The first `MENU` key equal to the command when both are lower-cased, or -1 iff none is. |
| Menus.Menu.Navigate | menu.py:21-32 | With no match, it returns "" and leaves `close` unchanged. With a match, it returns that key's page, with the key in its stored spelling, or "" for an empty list. `close` becomes the substring test of the lower-cased command against "exit/close/good bye". |
| Menus.LoweredKeys | menu.py:3-18 | The keys of `MENU`, lower-cased, in order. |
| Menus.KeysDistinctIgnoringCase | menu.py:3-18 | No two keys of `MENU` are equal when lower-cased, so at most one key can match a command. |
| Menus.ClosingWordPositions | menu.py:25 | Among the lower-cased keys, exactly "exit", "close" and "good bye" occur in "exit/close/good bye". |
| Menus.ClosingKeyPositions | menu.py:14-16 | The keys Exit, Close and Good Bye are at positions 10 to 12 of `MENU`. |
| Menus.CloseExactlyOnClosingKeys | menu.py:24-25 | After a match, `close` is true iff the matched key is Exit, Close or Good Bye. |
| Menus.Page | menu.py:26-29 | A key's page is empty iff its item list is; otherwise it opens with `-----------{key}--------` and a newline, and closes with a newline and the 24-dash rule. |
| Menus.PageLines | menu.py:26-29 | A page is the title rule line, then one line per item, then the closing rule. |
| ArgHandlers.KeysDistinct | arg_handlers.py:29-153 | Every handler kind has its own argument key. |
| ArgHandlers.Convert | arg_handlers.py:27-158 | Name, Text, Tags, Id, Search, Field and Tag raise their own `ValueError` for a falsy value. Phone and Intersec raise only for `None`. Phone also raises the ten-digit error for an invalid number. Name gives a required `Name`, and Tags gives the words. Intersec gives whether the value lower-cased is "y". The others give the value unchanged. |
| ArgHandlers.SplitTags | arg_handlers.py:90-95 | The append loop produces the pieces of `tags.split(" ")` in order, with empty ones dropped. |
| ArgHandlers.TagsAreTheWords | arg_handlers.py:90-95 | Each tag is non-empty and has no space, and together they are the input with its spaces removed. |
| ArgHandlers.IntersecYes | arg_handlers.py:138 | `value.lower() == "y"` holds exactly for "y" and "Y". |
| ArgHandlers.HandleChain | arg_handlers.py:21-158 | The chain's answer: `None` when no handler's key is among the arguments; a converted value or an error only when some handler's key is present. |
| ArgHandlers.FirstPresent | arg_handlers.py:21-25 | The first handler in the chain whose key is among the arguments, or -1 iff there is none. |
| ArgHandlers.ChainIsFirstPresent | arg_handlers.py:21-25 | A chain answers what its first handler with a present key answers, or `None` when no key is present. |
| ArgHandlers.PresentKeyIgnoresSuccessors | arg_handlers.py:28-35 | A handler whose key is present answers the same whatever follows it. |
| ArgHandlers.AbsentKeyDelegates | arg_handlers.py:21-30 | A handler whose key is absent answers what the rest of the chain answers. |
| ArgHandlers.Handler.SetNext | arg_handlers.py:15-18 | Stores the successor and returns it, so calls can be chained. |
| ArgHandlers.Handler.Handle | arg_handlers.py:21-158 | The recursive delegation along the handler objects gives the chain's answer. |
| Handlers.StartBot | handler.py:30-35 | The fixed greeting. |
| Handlers.FinishBot | handler.py:122-125 | Returns `EXIT_MESSAGE` (handler.py:2), "Good bye!". |
| Handlers.InputError | handler.py:7-28 | A TypeError becomes "Less arguments given." and a KeyError the "no contact" reply. For any other exception, evaluating `except NameExistsError`, a name no module defines, raises NameError. |
| Handlers.Entries | handler.py:102-109 | The book's records in insertion order, each as its name and its phone values. |
| Handlers.ShowAllContacts | handler.py:93-120 | The reply is the table of the book's contacts, in insertion order. |
| Handlers.RenderTable | handler.py:99-118 | The width loop and the contact loop produce the header followed by each contact's lines. |
| Handlers.AppendContact | handler.py:108-118 | The `+=` steps and the final trim add exactly the contact's lines. Without phones, the contact gets one line with an empty phone cell. With `k` phones, it gets `k` lines, and no continuation cell is left after the last phone. |
| Handlers.TrailIsLinesPlusBlank | handler.py:114-115 | After the phone loop, the text is the contact's lines followed by one dangling blank name cell. |
| Handlers.TrimTrail | handler.py:117-118 | Cutting `name_width + 2` characters removes exactly that dangling cell. |
| Handlers.ContactLineWidths | handler.py:99-118 | Every line, header included, is `name_width + 15 + 3` characters followed by `\n`. |
| Handlers.ContactLineCells | handler.py:109-115 | The first line of a contact carries the padded name, and later lines carry a blank cell. Line `k` carries phone `k` padded to 15 characters, or 15 spaces when there are no phones. |

## Left out

- `main.py`, `interfaces.py` and `bot.main` (bot.py:118-135) are the console read/print loops. Only the step that spreads parameters into a handler call is modelled, by `Bot.Arguments`.
- `FolderHandler` depends on the filesystem (`Path.exists`).
- `BirthdayHandler` and `EmailHandler` build `Birthday`/`Email` objects that no module defines.
- These parts of handler.py call record methods and exceptions that `address_book.py` does not define, so they are not modelled:
  - the handlers `add_contact`, `delete_contact`, `add_phone`, `edit_phone`, `delete_phone` and `show_phone`;
  - their `HANDLER_DICT`;
  - the `NameExistsError`, `IndexError` and `PhoneNotFoundError` clauses. The `IndexError` and `PhoneNotFoundError` clauses (handler.py:22-25) are never reached: for any exception other than TypeError and KeyError, evaluating the undefined name `NameExistsError` raises NameError first, which is what `Handlers.InputError` models.
- `Phone.__str__` is not modelled; it only returns the value. The `required` flag of `Field` is carried (`Book.Name`, `Book.Phone.required`) but no logic depends on it.
- `AddressBook` inherits all of `UserDict`. Only `add_record`, `delete` and `find` are modelled, not writes to the raw `data` dictionary.
- Builtins.IsDigits: models `str.isdigit` on ASCII digits only. Python also accepts other Unicode digits.
- Builtins.Lower: models `str.lower` on ASCII letters only. Other characters are left unchanged, so lower-casing keeps the length, which `command_parcer` relies on.
- ArgHandlers.Convert: the Phone handler's result is modelled by its number, not as a `Phone` object.
- ArgHandlers.Handler.Handle: requires the successor links to form a finite, acyclic chain. Python also answers a cyclic chain as soon as a handler on the cycle finds its key (a NameHandler and a PhoneHandler linked to each other answer `{"phone": …}` with a `Phone`); only a cycle on which no key is present recurses until RecursionError. The model covers neither kind of cyclic chain.
- Bot.RenderTable and Handlers.RenderTable take a snapshot of the contacts as values. The source iterates over the live dictionary, which nothing changes during the loop.
- Bot.Contacts.Invoke: the argument-count check stands in for Python's TypeError on a call with the wrong number of arguments. A TypeError raised inside a handler cannot happen here, because every operand is a string.

## Findings

| source | as written | input that shows it | evidently intended | confidence | as-written member | corrected member |
|---|---|---|---|---|---|---|
| bot.py:109-111 with bot.py:133 | For "phone", `params = ...split(" ")[0]` is a string, and `handler(*params)` spreads it into one argument per character | "phone Bob": `show_phone` gets 3 arguments, raises TypeError, and the decorator replies "Please give me phone number" instead of looking up Bob | The parameters are the one-element list `[first piece]`, as for "add"/"change", so `show_phone` gets one argument | not executed | Bot.PhoneParamsSpreadAsWritten (with Bot.PhoneBobCommand) | Bot.IntendedParams, Bot.IntendedPhoneParamsFit |
