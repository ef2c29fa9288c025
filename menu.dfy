/** menu.py: the navigation menu. `Navigate` looks a command up among the menu
    keys without regard to case, renders that key's page, and sets the `close`
    flag that ends the program's loop. */
module Menus {
  import opened Builtins

  /** `Menu.MENU`, in declaration order: each key with the items of its page. */
  const MENU: seq<(string, seq<string>)> := [
    ("Main", ["Hello", "Contacts", "Notes", "File Sorter", "Exit/Close/Good Bye"]),
    ("Contacts", ["Add", "Delete", "Add phone", "Del phone", "Find", "DTB", "SBS", "Show", "Next"]),
    ("Notes", ["Add", "Delete", "Add tag", "Del tag", "Find", "Show", "Next"]),
    ("Edit", []),
    ("Add", []),
    ("Delete", []),
    ("Find", []),
    ("DTB", []),
    ("SBS", []),
    ("File Sorter", []),
    ("Exit", []),
    ("Close", []),
    ("Good Bye", []),
    ("Show", []),
    ("Phone", ["add", "edit", "delete"])
  ]

  /** The text whose substrings close the menu. */
  const CLOSE_WORDS := "exit/close/good bye"

  /** The keys that, once matched, close the menu. */
  const CLOSING_KEYS: seq<string> := ["Exit", "Close", "Good Bye"]

  const RULE := "------------------------"

  /** The page shown for a key: nothing for an empty item list, otherwise a
      title line, the items one per line, and a closing rule. */
  function Page(key: string, items: seq<string>): (page: string)
    ensures page == "" <==> items == []
    ensures items != [] ==> var title := "-----------" + key + "--------\n";
              && |page| >= |title| + 25
              && page[..|title|] == title
              && page[|page| - 25..] == "\n" + RULE
  {
    if items == [] then ""
    else "-----------" + key + "--------\n" + Join("\n", items) + "\n" + RULE
  }

  /** The position of the first key equal to `command` when both are
      lower-cased, or -1. */
  function MatchIndex(command: string): (i: int)
    ensures -1 <= i < |MENU|
    ensures i == -1 <==> forall k :: 0 <= k < |MENU| ==> Lower(MENU[k].0) != Lower(command)
    ensures 0 <= i ==> Lower(MENU[i].0) == Lower(command)
    ensures 0 <= i ==> forall k :: 0 <= k < i ==> Lower(MENU[k].0) != Lower(command)
  {
    FirstMatch(command, 0)
  }

  function FirstMatch(command: string, from: nat): (i: int)
    requires from <= |MENU|
    ensures i == -1 || from <= i < |MENU|
    ensures i == -1 <==> forall k :: from <= k < |MENU| ==> Lower(MENU[k].0) != Lower(command)
    ensures 0 <= i ==> Lower(MENU[i].0) == Lower(command)
    ensures 0 <= i ==> forall k :: from <= k < i ==> Lower(MENU[k].0) != Lower(command)
    decreases |MENU| - from
  {
    if from == |MENU| then -1
    else if Lower(MENU[from].0) == Lower(command) then from
    else FirstMatch(command, from + 1)
  }

  class Menu {
    var close: bool

    constructor ()
      ensures !close
    {
      close := false;
    }

    /** `navigate(command)`: at most one key is processed. Without a match the
        result is empty and `close` keeps its value; with one, `close` is set by
        whether the lower-cased command occurs in "exit/close/good bye" and the
        result is that key's page. */
    method Navigate(command: string) returns (result: string)
      modifies this
      ensures var i := MatchIndex(command);
              && (i == -1 ==> result == "" && close == old(close))
              && (i != -1 ==> result == Page(MENU[i].0, MENU[i].1)
                              && close == Contains(CLOSE_WORDS, Lower(command)))
    {
      result := "";
      var n := 0;
      while n < |MENU|
        invariant 0 <= n <= |MENU|
        invariant forall k :: 0 <= k < n ==> Lower(MENU[k].0) != Lower(command)
        invariant result == "" && close == old(close)
      {
        var (key, items) := MENU[n];
        if Lower(command) == Lower(key) {
          close := Contains(CLOSE_WORDS, Lower(command));
          if items != [] {
            result := "\n";
            result := Join(result, items) + "\n" + RULE;
            result := "-----------" + key + "--------\n" + result;
          }
          assert MatchIndex(command) == n;
          return;
        }
        n := n + 1;
      }
    }
  }

  /** The menu keys, lower-cased. */
  const LOWERED_KEYS: seq<string> := ["main", "contacts", "notes", "edit", "add", "delete", "find",
    "dtb", "sbs", "file sorter", "exit", "close", "good bye", "show", "phone"]

  lemma LoweredKeys()
    ensures |LOWERED_KEYS| == |MENU|
    ensures forall k :: 0 <= k < |MENU| ==> Lower(MENU[k].0) == LOWERED_KEYS[k]
  {
    forall k | 0 <= k < |MENU| ensures Lower(MENU[k].0) == LOWERED_KEYS[k] {
      if k < 5 { LoweredKeysFrom0(k); }
      else if k < 10 { LoweredKeysFrom5(k); }
      else { LoweredKeysFrom10(k); }
    }
  }

  lemma LoweredKeysFrom0(k: int)
    requires 0 <= k < 5
    ensures Lower(MENU[k].0) == LOWERED_KEYS[k]
  {
    if k == 0 {} else if k == 1 {} else if k == 2 {} else if k == 3 {} else {}
  }

  lemma LoweredKeysFrom5(k: int)
    requires 5 <= k < 10
    ensures Lower(MENU[k].0) == LOWERED_KEYS[k]
  {
    if k == 5 {} else if k == 6 {} else if k == 7 {} else if k == 8 {} else {}
  }

  lemma LoweredKeysFrom10(k: int)
    requires 10 <= k < |MENU|
    ensures Lower(MENU[k].0) == LOWERED_KEYS[k]
  {
    if k == 10 {} else if k == 11 {} else if k == 12 {} else if k == 13 {} else {}
  }

  /** A command matches at most one key: the keys differ even after lower-casing. */
  lemma KeysDistinctIgnoringCase()
    ensures forall a, b :: 0 <= a < b < |MENU| ==> Lower(MENU[a].0) != Lower(MENU[b].0)
  {
    LoweredKeys();
  }

  /** The lower-cased closing keys occur inside "exit/close/good bye". */
  lemma ClosingWordsPresent()
    ensures Contains(CLOSE_WORDS, "exit") && Contains(CLOSE_WORDS, "close")
    ensures Contains(CLOSE_WORDS, "good bye")
  {
    assert OccursAt(CLOSE_WORDS, "exit", 0);
    assert OccursAt(CLOSE_WORDS, "close", 5);
    assert OccursAt(CLOSE_WORDS, "good bye", 11);
  }

  /** No other lower-cased key occurs inside "exit/close/good bye" (first part). */
  lemma ClosingWordsAbsentFirst()
    ensures !Contains(CLOSE_WORDS, "main") && !Contains(CLOSE_WORDS, "contacts")
    ensures !Contains(CLOSE_WORDS, "notes") && !Contains(CLOSE_WORDS, "edit")
  {
    assert !Contains(CLOSE_WORDS, "main") by { AbsentByChar(CLOSE_WORDS, "main", 0); }
    assert !Contains(CLOSE_WORDS, "contacts") by { AbsentByChar(CLOSE_WORDS, "contacts", 2); }
    assert !Contains(CLOSE_WORDS, "notes") by { AbsentByChar(CLOSE_WORDS, "notes", 0); }
    assert !Contains(CLOSE_WORDS, "edit") by { AbsentByPair(CLOSE_WORDS, "edit", 0); }
  }

  /** No other lower-cased key occurs inside "exit/close/good bye" (second part). */
  lemma ClosingWordsAbsentSecond()
    ensures !Contains(CLOSE_WORDS, "add") && !Contains(CLOSE_WORDS, "delete")
    ensures !Contains(CLOSE_WORDS, "find") && !Contains(CLOSE_WORDS, "dtb")
  {
    assert !Contains(CLOSE_WORDS, "add") by { AbsentByChar(CLOSE_WORDS, "add", 0); }
    assert !Contains(CLOSE_WORDS, "delete") by { AbsentByPair(CLOSE_WORDS, "delete", 0); }
    assert !Contains(CLOSE_WORDS, "find") by { AbsentByChar(CLOSE_WORDS, "find", 0); }
    assert !Contains(CLOSE_WORDS, "dtb") by { AbsentByPair(CLOSE_WORDS, "dtb", 0); }
  }

  /** No other lower-cased key occurs inside "exit/close/good bye" (third part). */
  lemma ClosingWordsAbsentThird()
    ensures !Contains(CLOSE_WORDS, "sbs") && !Contains(CLOSE_WORDS, "file sorter")
    ensures !Contains(CLOSE_WORDS, "show") && !Contains(CLOSE_WORDS, "phone")
  {
    assert !Contains(CLOSE_WORDS, "sbs") by { AbsentByPair(CLOSE_WORDS, "sbs", 0); }
    assert !Contains(CLOSE_WORDS, "file sorter") by { AbsentByChar(CLOSE_WORDS, "file sorter", 0); }
    assert !Contains(CLOSE_WORDS, "show") by { AbsentByChar(CLOSE_WORDS, "show", 1); }
    assert !Contains(CLOSE_WORDS, "phone") by { AbsentByChar(CLOSE_WORDS, "phone", 0); }
  }

  /** The lower-cased keys inside "exit/close/good bye" are those at positions 10 to 12. */
  lemma ClosingWordPositions()
    ensures forall k :: 0 <= k < |LOWERED_KEYS| ==> (Contains(CLOSE_WORDS, LOWERED_KEYS[k]) <==> 10 <= k <= 12)
  {
    ClosingWordsPresent();
    ClosingWordsAbsentFirst();
    ClosingWordsAbsentSecond();
    ClosingWordsAbsentThird();
    forall k | 0 <= k < |LOWERED_KEYS| ensures Contains(CLOSE_WORDS, LOWERED_KEYS[k]) <==> 10 <= k <= 12 {
      var w := LOWERED_KEYS[k];
      if k < 4 {
        assert w in {"main", "contacts", "notes", "edit"};
      } else if k < 8 {
        assert w in {"add", "delete", "find", "dtb"};
      } else if k < 10 || k > 12 {
        assert w in {"sbs", "file sorter", "show", "phone"};
      } else {
        assert w in {"exit", "close", "good bye"};
      }
    }
  }

  /** The closing keys sit at positions 10 to 12 of the menu. */
  lemma ClosingKeyPositions()
    ensures forall k :: 0 <= k < |MENU| ==> (MENU[k].0 in CLOSING_KEYS <==> 10 <= k <= 12)
  {
  }

  /** Once a key is matched, `close` becomes true exactly when that key is
      "Exit", "Close" or "Good Bye": the substring test in menu.py picks out
      those three keys and no other. */
  lemma CloseExactlyOnClosingKeys(command: string)
    requires MatchIndex(command) != -1
    ensures Contains(CLOSE_WORDS, Lower(command)) <==> MENU[MatchIndex(command)].0 in CLOSING_KEYS
  {
    LoweredKeys();
    ClosingWordPositions();
    ClosingKeyPositions();
  }

  /** A page with items splits back, line by line, into its title, its items and
      the closing rule. */
  lemma {:induction false} PageLines(key: string, items: seq<string>)
    requires items != []
    requires '\n' !in key && forall k :: 0 <= k < |items| ==> '\n' !in items[k]
    ensures Split(Page(key, items), '\n') == ["-----------" + key + "--------"] + items + [RULE]
  {
    var title := "-----------" + key + "--------";
    var lines := [title] + items + [RULE];
    JoinPrepend("\n", title, items + [RULE]);
    JoinAppend("\n", items, RULE);
    assert lines == [title] + (items + [RULE]);
    assert Page(key, items) == Join("\n", lines);
    assert forall k :: 0 <= k < |lines| ==> '\n' !in lines[k] by {
      assert forall k :: 0 < k < |lines| - 1 ==> lines[k] == items[k - 1];
    }
    SplitJoin(lines, '\n');
  }
}
