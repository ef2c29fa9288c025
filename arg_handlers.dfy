/** arg_handlers.py: a chain of responsibility that validates and converts one
    argument of a command. Each handler owns one key of the argument
    dictionary; the first handler along the chain whose key is present decides,
    either converting the value or raising ValueError, and a chain that runs out
    returns nothing. */
module ArgHandlers {
  import opened Wrappers
  import opened Builtins
  import opened Book

  /** The concrete handler classes of the chain. */
  datatype Kind = NameKind | PhoneKind | TextKind | TagsKind | IdKind | SearchKind | IntersecKind | FieldKind | TagKind

  /** The argument key each handler answers to. */
  function Key(kind: Kind): string {
    match kind
    case NameKind => "name"
    case PhoneKind => "phone"
    case TextKind => "text"
    case TagsKind => "tags"
    case IdKind => "id"
    case SearchKind => "search"
    case IntersecKind => "intersec"
    case FieldKind => "field"
    case TagKind => "tag"
  }

  /** The message of the ValueError a handler raises for a missing value. */
  function Prompt(kind: Kind): string {
    match kind
    case NameKind => "Give me name please"
    case PhoneKind => "Give me phone number"
    case TextKind => "Write your note here:"
    case TagsKind => "Enter your tags"
    case IdKind => "Give me id:"
    case SearchKind => "What do you want to search:"
    case IntersecKind => "All of your tags in each record?(Y/N)"
    case FieldKind => "What field do you want to edit:"
    case TagKind => "Enter tag:"
  }

  /** Every handler has its own key, so at most one handler of a chain of
      distinct kinds answers a given key. */
  lemma KeysDistinct(a: Kind, b: Kind)
    ensures Key(a) == Key(b) <==> a == b
  {
  }

  /** What a handler returns: a `Name`, a checked phone (by its value), the
      value itself, a list of tags, or a yes/no answer. */
  datatype Value = NameValue(name: Name) | PhoneValue(number: string) | TextValue(text: string)
                 | TagsValue(tags: seq<string>) | Flag(flag: bool)

  /** A value of the argument dictionary: `None` or a string. */
  type Arg = Option<string>

  /** Python's `not value` on `None` or a string. */
  predicate Falsy(value: Arg) {
    value.None? || value.value == ""
  }

  /** The handlers that return their string argument unchanged. */
  predicate PassesText(kind: Kind) {
    kind.TextKind? || kind.IdKind? || kind.SearchKind? || kind.FieldKind? || kind.TagKind?
  }

  // ---------------------------------------------------------------------------
  // Tags

  /** The list `tags_list` ends up as: the pieces in order, empty ones dropped. */
  function NonEmpty(pieces: seq<string>): (r: seq<string>)
    ensures |r| <= |pieces|
    ensures forall k :: 0 <= k < |r| ==> r[k] != "" && r[k] in pieces
  {
    if pieces == [] then []
    else
      var last := pieces[|pieces| - 1];
      NonEmpty(pieces[..|pieces| - 1]) + (if last != "" then [last] else [])
  }

  lemma NonEmptyStep(pieces: seq<string>, i: nat)
    requires i < |pieces|
    ensures NonEmpty(pieces[..i + 1]) == NonEmpty(pieces[..i]) + if pieces[i] != "" then [pieces[i]] else []
  {
    assert pieces[..i + 1][..i] == pieces[..i];
  }

  /** `s` with every occurrence of `c` taken out. */
  function Without(s: string, c: char): (r: string)
    ensures c !in r
  {
    if s == [] then [] else (if s[0] == c then [] else [s[0]]) + Without(s[1..], c)
  }

  /** The tags of `tags`: the space-separated words, without empty ones. */
  function Tags(tags: string): seq<string> {
    NonEmpty(Split(tags, ' '))
  }

  /** The loop of `TagsHandler`: walks the pieces of `tags.split(" ")` and appends
      each non-empty one. */
  method SplitTags(tags: string) returns (tagsList: seq<string>)
    ensures tagsList == Tags(tags)
  {
    var pieces := Split(tags, ' ');
    tagsList := [];
    for i := 0 to |pieces|
      invariant tagsList == NonEmpty(pieces[..i])
    {
      NonEmptyStep(pieces, i);
      if pieces[i] != "" {
        tagsList := tagsList + [pieces[i]];
      }
    }
    assert pieces[..|pieces|] == pieces;
  }

  /** Every tag is a non-empty word without spaces, and the tags, glued back
      together in order, are exactly the input with its spaces taken out. */
  lemma TagsAreTheWords(tags: string)
    ensures forall k :: 0 <= k < |Tags(tags)| ==> Tags(tags)[k] != "" && ' ' !in Tags(tags)[k]
    ensures Concat(Tags(tags)) == Without(tags, ' ')
  {
    ConcatNonEmpty(Split(tags, ' '));
    ConcatSplit(tags, ' ');
  }

  /** Dropping empty pieces does not change their concatenation. */
  lemma {:induction false} ConcatNonEmpty(pieces: seq<string>)
    ensures Concat(NonEmpty(pieces)) == Concat(pieces)
    decreases |pieces|
  {
    if pieces != [] {
      var init, last := pieces[..|pieces| - 1], pieces[|pieces| - 1];
      assert pieces == init + [last];
      ConcatNonEmpty(init);
      ConcatAppend(init, last);
      if last != "" {
        ConcatAppend(NonEmpty(init), last);
      } else {
        assert NonEmpty(pieces) == NonEmpty(init);
        assert Concat(init) + last == Concat(init);
      }
    }
  }

  /** Splitting at `sep` and gluing the pieces back together loses exactly the
      separators. */
  lemma {:induction false} ConcatSplit(s: string, sep: char)
    ensures Concat(Split(s, sep)) == Without(s, sep)
    decreases |s|
  {
    var i := IndexOf(s, sep);
    if i == -1 {
      assert Concat(Split(s, sep)) == s + Concat([]);
      WithoutAbsent(s, sep);
    } else {
      var rest := s[i + 1..];
      assert Concat(Split(s, sep)) == s[..i] + Concat(Split(rest, sep));
      ConcatSplit(rest, sep);
      WithoutAtFirst(s, i, sep);
    }
  }

  /** Taking the separators out of `s` keeps the text before the first one. */
  lemma WithoutAtFirst(s: string, i: nat, c: char)
    requires i < |s| && s[i] == c && c !in s[..i]
    ensures Without(s, c) == s[..i] + Without(s[i + 1..], c)
  {
    var rest := s[i + 1..];
    assert s == s[..i] + ([c] + rest);
    WithoutAppend(s[..i], [c] + rest, c);
    WithoutAbsent(s[..i], c);
    assert ([c] + rest)[1..] == rest;
  }

  lemma {:induction false} WithoutAbsent(s: string, c: char)
    requires c !in s
    ensures Without(s, c) == s
    decreases |s|
  {
    if s != [] {
      WithoutAbsent(s[1..], c);
    }
  }

  lemma {:induction false} WithoutAppend(a: string, b: string, c: char)
    ensures Without(a + b, c) == Without(a, c) + Without(b, c)
    decreases |a|
  {
    if a == [] {
      assert a + b == b;
    } else {
      assert (a + b)[1..] == a[1..] + b;
      WithoutAppend(a[1..], b, c);
    }
  }

  // ---------------------------------------------------------------------------
  // One handler

  /** `IntersecHandler`'s answer: the value lower-cased equals "y", that is, it is
      "y" or "Y" and nothing else. */
  lemma IntersecYes(value: string)
    ensures Lower(value) == "y" <==> value == "y" || value == "Y"
  {
    if Lower(value) == "y" {
      assert |value| == 1 && LowerChar(value[0]) == 'y';
      assert value == [value[0]];
    }
  }

  /** What the handler of `kind` does with the value of its key:
      - Name: rejects `None` and "", else a required `Name`;
      - Phone: rejects only `None`; any string then meets the ten-digit check;
      - Tags: rejects `None` and "", else the non-empty words;
      - Intersec: rejects only `None`, else whether it lower-cases to "y";
      - Text, Id, Search, Field, Tag: reject `None` and "", else the value. */
  function Convert(kind: Kind, value: Arg): (r: Result<Value, Exception>)
    ensures r.Failure? <==> if kind.PhoneKind? then value.None? || !IsValidPhone(value.value)
                            else if kind.IntersecKind? then value.None?
                            else Falsy(value)
    ensures r.Failure? ==> r.error == ValueError(if kind.PhoneKind? && value.Some? then PHONE_INVALID else Prompt(kind))
    ensures r.Success? && kind.NameKind? ==> r.value == NameValue(Name(value.value, true))
    ensures r.Success? && kind.PhoneKind? ==> r.value == PhoneValue(value.value)
    ensures r.Success? && kind.TagsKind? ==> r.value == TagsValue(Tags(value.value))
    ensures r.Success? && kind.IntersecKind? ==> r.value == Flag(value.value == "y" || value.value == "Y")
    ensures r.Success? && PassesText(kind) ==> r.value == TextValue(value.value)
  {
    match kind
    case PhoneKind =>
      if value.None? then Failure(ValueError(Prompt(kind)))
      else if !IsValidPhone(value.value) then Failure(ValueError(PHONE_INVALID))
      else Success(PhoneValue(value.value))
    case IntersecKind =>
      if value.None? then Failure(ValueError(Prompt(kind)))
      else
        IntersecYes(value.value);
        Success(Flag(Lower(value.value) == "y"))
    case NameKind =>
      if Falsy(value) then Failure(ValueError(Prompt(kind))) else Success(NameValue(Name(value.value, true)))
    case TagsKind =>
      if Falsy(value) then Failure(ValueError(Prompt(kind))) else Success(TagsValue(Tags(value.value)))
    case _ =>
      if Falsy(value) then Failure(ValueError(Prompt(kind))) else Success(TextValue(value.value))
  }

  // ---------------------------------------------------------------------------
  // The chain

  /** The chain as values: the first kind whose key is present converts that
      key's value; with no such kind the answer is `None`. */
  function HandleChain(kinds: seq<Kind>, args: map<string, Arg>): (r: Result<Option<Value>, Exception>)
    ensures (forall k :: 0 <= k < |kinds| ==> Key(kinds[k]) !in args) ==> r == Success(None)
    ensures r.Failure? || r.value.Some? ==> exists k :: 0 <= k < |kinds| && Key(kinds[k]) in args
  {
    if kinds == [] then Success(None)
    else if Key(kinds[0]) in args then
      match Convert(kinds[0], args[Key(kinds[0])])
      case Success(v) => Success(Some(v))
      case Failure(e) => Failure(e)
    else HandleChain(kinds[1..], args)
  }

  /** The position of the first kind whose key is present, or -1. */
  function FirstPresent(kinds: seq<Kind>, args: map<string, Arg>): (i: int)
    ensures -1 <= i < |kinds|
    ensures i == -1 <==> forall k :: 0 <= k < |kinds| ==> Key(kinds[k]) !in args
    ensures 0 <= i ==> Key(kinds[i]) in args && forall k :: 0 <= k < i ==> Key(kinds[k]) !in args
  {
    if kinds == [] then -1
    else if Key(kinds[0]) in args then 0
    else
      var i := FirstPresent(kinds[1..], args);
      assert forall k :: 1 <= k < |kinds| ==> kinds[k] == kinds[1..][k - 1];
      if i == -1 then -1 else i + 1
  }

  /** The chain answers with the conversion by the first handler whose key is
      present, and with `None` when no key along the chain is present. */
  lemma {:induction false} ChainIsFirstPresent(kinds: seq<Kind>, args: map<string, Arg>)
    ensures var i := FirstPresent(kinds, args);
            HandleChain(kinds, args) == if i == -1 then Success(None)
                                        else match Convert(kinds[i], args[Key(kinds[i])])
                                             case Success(v) => Success(Some(v))
                                             case Failure(e) => Failure(e)
    decreases |kinds|
  {
    if kinds != [] && Key(kinds[0]) !in args {
      ChainIsFirstPresent(kinds[1..], args);
    }
  }

  /** A handler whose key is present never consults its successors: whatever
      follows it, the answer is the same. */
  lemma PresentKeyIgnoresSuccessors(kind: Kind, rest: seq<Kind>, other: seq<Kind>, args: map<string, Arg>)
    requires Key(kind) in args
    ensures HandleChain([kind] + rest, args) == HandleChain([kind] + other, args)
  {
  }

  /** A handler whose key is absent answers what its successors answer. */
  lemma AbsentKeyDelegates(kind: Kind, rest: seq<Kind>, args: map<string, Arg>)
    requires Key(kind) !in args
    ensures HandleChain([kind] + rest, args) == HandleChain(rest, args)
  {
    assert ([kind] + rest)[1..] == rest;
  }

  /** A handler of the chain; `next` is `_next_handler`. */
  class Handler {
    const kind: Kind
    var next: Handler?

    constructor (kind: Kind)
      ensures this.kind == kind && next == null
    {
      this.kind := kind;
      next := null;
    }

    /** `set_next(handler)`: stores the successor and returns it, so that calls
        can be chained. */
    method SetNext(handler: Handler?) returns (r: Handler?)
      modifies this
      ensures next == handler && r == handler
    {
      next := handler;
      return handler;
    }

    /** `handle(args)`: when its key is absent the handler hands over to its
        successor, or answers `None` at the end of the chain; otherwise it
        converts the value itself. Its answer is that of the chain of kinds
        from this handler on. */
    method Handle(args: map<string, Arg>, ghost chain: seq<Handler>) returns (r: Result<Option<Value>, Exception>)
      requires IsChain(chain) && chain[0] == this
      ensures r == HandleChain(Kinds(chain), args)
      decreases |chain|
    {
      var key := Key(kind);
      if key !in args {
        assert Kinds(chain)[1..] == Kinds(chain[1..]);
        if next != null {
          r := next.Handle(args, chain[1..]);
        } else {
          r := Success(None);
        }
        return;
      }
      var value := args[key];
      if kind.TagsKind? && !Falsy(value) {
        var tags := SplitTags(value.value);
        return Success(Some(TagsValue(tags)));
      }
      var converted := Convert(kind, value);
      if converted.Failure? {
        return Failure(converted.error);
      }
      return Success(Some(converted.value));
    }
  }

  /** `chain` lists the handlers reached from its first one by following `next`,
      the last one without a successor. */
  ghost predicate IsChain(chain: seq<Handler>)
    reads chain
  {
    && |chain| > 0
    && (forall i :: 0 <= i < |chain| - 1 ==> chain[i].next == chain[i + 1])
    && chain[|chain| - 1].next == null
  }

  function Kinds(chain: seq<Handler>): (kinds: seq<Kind>)
    ensures |kinds| == |chain| && forall i :: 0 <= i < |chain| ==> kinds[i] == chain[i].kind
  {
    seq(|chain|, i requires 0 <= i < |chain| => chain[i].kind)
  }
}
