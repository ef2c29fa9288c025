/** The contact data model of address_book.py: a self-validating `Phone`, a
    `Record` owning an ordered list of phones, and an `AddressBook` mapping each
    unique name to its record, iterated in insertion order. */
module Book {
  import opened Wrappers
  import opened Builtins

  const PHONE_INVALID := "Phone must contain 10 digits"
  const PHONE_NOT_FOUND := "Phone not found"

  function NameExists(name: string): string {
    "Record with name " + name + " is already exists"
  }

  /** `Phone.is_valid_phone`: every character an (ASCII) digit, exactly ten of them. */
  predicate IsValidPhone(s: string) {
    IsDigits(s) && |s| == 10
  }

  /** A `Name` field; it is never reassigned, so it is a value. */
  datatype Name = Name(value: string, required: bool)

  /** A phone field. Every assignment to `value` goes through the same check, in
      construction and afterwards. */
  class Phone {
    var value: string
    const required: bool

    ghost predicate Valid()
      reads this
    {
      IsValidPhone(value)
    }

    /** The path of `Phone(v)` on which the check passes; `NewPhone` is the call
        that may fail. */
    constructor (v: string)
      requires IsValidPhone(v)
      ensures Valid() && value == v && !required
    {
      value := v;
      required := false;
    }

    /** `phone.value = v`: checked first, so a rejected value leaves the old one. */
    method SetValue(v: string) returns (r: Outcome<Exception>)
      modifies this
      ensures r.Pass? <==> IsValidPhone(v)
      ensures r.Fail? ==> r.error == ValueError(PHONE_INVALID)
      ensures value == if r.Pass? then v else old(value)
    {
      if !IsValidPhone(v) {
        return Fail(ValueError(PHONE_INVALID));
      }
      value := v;
      return Pass;
    }
  }

  /** `Phone(v)`: raises before any phone exists when `v` is not ten digits. */
  method NewPhone(v: string) returns (r: Result<Phone, Exception>)
    ensures r.Success? <==> IsValidPhone(v)
    ensures r.Success? ==> fresh(r.value) && r.value.Valid() && r.value.value == v
    ensures r.Failure? ==> r.error == ValueError(PHONE_INVALID)
  {
    if !IsValidPhone(v) {
      return Failure(ValueError(PHONE_INVALID));
    }
    var p := new Phone(v);
    return Success(p);
  }

  class Record {
    const name: Name
    var phones: seq<Phone>

    /** Every phone passed the check, and no phone object appears twice (each was
        created by `AddPhone`). */
    ghost predicate Valid()
      reads this, phones
    {
      && (forall i :: 0 <= i < |phones| ==> phones[i].Valid())
      && Distinct(phones)
    }

    /** The phone numbers, in list order. */
    function Values(): (vs: seq<string>)
      reads this, phones
      ensures |vs| == |phones|
      ensures forall i :: 0 <= i < |phones| ==> vs[i] == phones[i].value
    {
      seq(|phones|, i requires 0 <= i < |phones| reads this, phones => phones[i].value)
    }

    /** The part of `Record(name)` that cannot fail: a required name, no phones. */
    constructor (name: string)
      ensures Valid()
      ensures this.name == Name(name, true) && phones == []
    {
      this.name := Name(name, true);
      phones := [];
    }

    /** `str(record)`: the name, then the phone numbers joined by "; ". */
    function Render(): (text: string)
      reads this, phones
      ensures var prefix := "Contact name: " + name.value + ", phones: ";
              && |text| >= |prefix| && text[..|prefix|] == prefix
              && (phones == [] ==> text == prefix)
    {
      "Contact name: " + name.value + ", phones: " + Join("; ", Values())
    }

    /** `str(record)` of a valid record: after the 24 fixed characters and the
        name, phone `k` fills the ten characters from `12 * k` on, each followed
        by "; " except the last, so the phones read back in list order. */
    lemma RenderPhones()
      requires Valid()
      ensures var offset := 24 + |name.value|;
              && (phones == [] ==> |Render()| == offset)
              && (phones != [] ==> |Render()| + 2 == offset + 12 * |phones|)
              && (forall k :: 0 <= k < |phones| ==>
                   offset + 12 * k + 10 <= |Render()| && Render()[offset + 12 * k..offset + 12 * k + 10] == phones[k].value)
              && forall k :: 0 <= k < |phones| - 1 ==> Render()[offset + 12 * k + 10..offset + 12 * k + 12] == "; "
    {
      var prefix, vs := "Contact name: " + name.value + ", phones: ", Values();
      assert Render() == prefix + Join("; ", vs);
      assert forall k :: 0 <= k < |vs| ==> |vs[k]| == 10 by {
        forall k | 0 <= k < |vs| ensures |vs[k]| == 10 { assert phones[k].Valid(); }
      }
      PrefixedTens(prefix, vs);
    }

    /** `find_phone(v)`: the first phone, in list order, whose value is `v`. */
    method FindPhone(v: string) returns (r: Result<Phone, Exception>)
      ensures r.Success? <==> v in Values()
      ensures r.Success? ==> r.value == phones[IndexOf(Values(), v)]
      ensures r.Failure? ==> r.error == ValueError(PHONE_NOT_FOUND)
    {
      var i := 0;
      while i < |phones|
        invariant 0 <= i <= |phones|
        invariant v !in Values()[..i]
      {
        if phones[i].value == v {
          assert Values()[..i + 1] == Values()[..i] + [v];
          return Success(phones[i]);
        }
        assert Values()[..i + 1] == Values()[..i] + [phones[i].value];
        i := i + 1;
      }
      assert Values()[..i] == Values();
      return Failure(ValueError(PHONE_NOT_FOUND));
    }

    /** `add_phone(v)`: nothing for the empty string; otherwise one checked phone at
        the end, duplicates allowed, earlier phones untouched. */
    method AddPhone(v: string) returns (r: Outcome<Exception>)
      requires Valid()
      modifies this
      ensures Valid()
      ensures r.Pass? <==> v == "" || IsValidPhone(v)
      ensures r.Fail? ==> r.error == ValueError(PHONE_INVALID)
      ensures Values() == if v != "" && r.Pass? then old(Values()) + [v] else old(Values())
      ensures |phones| >= |old(phones)| && phones[..|old(phones)|] == old(phones)
      ensures |phones| > |old(phones)| ==> fresh(phones[|phones| - 1])
    {
      if v == "" {
        return Pass;
      }
      var p := NewPhone(v);
      if p.Failure? {
        return Fail(p.error);
      }
      phones := phones + [p.value];
      assert Values() == old(Values()) + [v];
      return Pass;
    }

    /** `remove_phone(v)`: finds the first phone equal to `v` and removes that object
        from the list; when `v` is absent it raises and the list stays as it was. */
    method RemovePhone(v: string) returns (r: Outcome<Exception>)
      requires Valid()
      modifies this
      ensures Valid()
      ensures r.Pass? <==> v in old(Values())
      ensures r.Fail? ==> r.error == ValueError(PHONE_NOT_FOUND)
      ensures r.Fail? ==> phones == old(phones)
      ensures r.Pass? ==> var i := IndexOf(old(Values()), v); phones == old(phones[..i] + phones[i + 1..])
      ensures Values() == RemoveFirst(old(Values()), v)
      ensures r.Pass? ==> multiset(Values()) == multiset(old(Values())) - multiset{v}
    {
      ghost var vs, ps := Values(), phones;
      var found := FindPhone(v);
      if found.Failure? {
        return Fail(found.error);
      }
      ghost var i := IndexOf(vs, v);
      Discard(found.value, i);
      return Pass;
    }

    /** `list.remove(phone)` for a phone object of the list: the object is found
        by identity, and since no object repeats it is the one at `i`. */
    method Discard(p: Phone, ghost i: int)
      requires Valid() && 0 <= i < |phones| && phones[i] == p
      modifies this
      ensures Valid()
      ensures phones == old(phones[..i] + phones[i + 1..])
      ensures Values() == old(Values()[..i] + Values()[i + 1..])
      ensures multiset(Values()) == multiset(old(Values())) - multiset{p.value}
    {
      ghost var vs, ps := Values(), phones;
      var k := IndexOf(phones, p);
      assert k == i by { IndexOfDistinct(phones, i); }
      assert Distinct(ps[..i] + ps[i + 1..]) by { CutAt(ps, i); }
      assert multiset(vs[..i] + vs[i + 1..]) == multiset(vs) - multiset{vs[i]} by { CutMultiset(vs, i); }
      phones := phones[..k] + phones[k + 1..];
      assert Values() == vs[..i] + vs[i + 1..] by { CutAt(ps, i); CutAt(vs, i); }
    }

    /** `edit_phone(old, new)`: re-validates and overwrites the value of the first
        phone equal to `old`, in place; positions and length are kept, and a
        rejected `new` or an absent `old` leaves every value as it was. */
    method EditPhone(oldValue: string, newValue: string) returns (r: Outcome<Exception>)
      requires Valid()
      modifies phones
      ensures Valid()
      ensures phones == old(phones)
      ensures oldValue !in old(Values()) ==> r == Fail(ValueError(PHONE_NOT_FOUND))
      ensures oldValue in old(Values()) && !IsValidPhone(newValue) ==> r == Fail(ValueError(PHONE_INVALID))
      ensures r.Pass? <==> oldValue in old(Values()) && IsValidPhone(newValue)
      ensures Values() == if r.Pass? then old(Values())[IndexOf(old(Values()), oldValue) := newValue] else old(Values())
    {
      var found := FindPhone(oldValue);
      if found.Failure? {
        return Fail(found.error);
      }
      ghost var vs := Values();
      ghost var i := IndexOf(vs, oldValue);
      assert forall j :: 0 <= j < |phones| && j != i ==> phones[j] != phones[i];
      r := found.value.SetValue(newValue);
      assert Values() == if r.Pass? then vs[i := newValue] else vs;
    }
  }

  /** `Record(name, phone="")`: a record with a required name and the phone added
      by `add_phone`, so the empty default gives a record without phones and an
      invalid phone makes the whole call raise. */
  method NewRecord(name: string, phone: string) returns (r: Result<Record, Exception>)
    ensures r.Success? <==> phone == "" || IsValidPhone(phone)
    ensures r.Failure? ==> r.error == ValueError(PHONE_INVALID)
    ensures r.Success? ==> fresh(r.value) && r.value.Valid() && r.value.name == Name(name, true)
    ensures r.Success? ==> r.value.Values() == if phone == "" then [] else [phone]
  {
    var record := new Record(name);
    var added := record.AddPhone(phone);
    if added.Fail? {
      return Failure(added.error);
    }
    return Success(record);
  }

  /** A dictionary from names to records; `keys` is the dictionary's insertion
      order. */
  class AddressBook {
    var keys: seq<string>
    var data: map<string, Record>

    /** Each name is stored once, in `keys` exactly when in `data`, and maps to the
        record carrying that name. */
    ghost predicate Valid()
      reads this
    {
      && Distinct(keys)
      && (forall k :: k in data <==> k in keys)
      && (forall k :: k in data ==> data[k].name.value == k)
    }

    constructor ()
      ensures Valid() && keys == [] && data == map[]
    {
      keys := [];
      data := map[];
    }

    /** The records in insertion order. */
    function Records(): (rs: seq<Record>)
      requires Valid()
      reads this
      ensures |rs| == |keys|
      ensures forall i :: 0 <= i < |keys| ==> rs[i] == data[keys[i]]
    {
      seq(|keys|, i requires 0 <= i < |keys| && Valid() reads this => data[keys[i]])
    }

    /** `add_record(record)`: refuses a name already present and changes nothing;
        otherwise the book gains exactly that name, last in order. */
    method AddRecord(record: Record) returns (r: Outcome<Exception>)
      requires Valid()
      modifies this
      ensures Valid()
      ensures r.Fail? <==> record.name.value in old(data)
      ensures r.Fail? ==> r.error == ValueError(NameExists(record.name.value))
      ensures r.Fail? ==> data == old(data) && keys == old(keys)
      ensures r.Pass? ==> data == old(data)[record.name.value := record] && keys == old(keys) + [record.name.value]
      ensures Find(record.name.value) == Some(if r.Pass? then record else old(data)[record.name.value])
    {
      var key := record.name.value;
      if key in data {
        return Fail(ValueError(NameExists(key)));
      }
      data := data[key := record];
      keys := keys + [key];
      return Pass;
    }

    /** `delete(name)`: removes and returns the record when present; otherwise
        returns nothing and changes nothing. Other names keep their order. */
    method Delete(name: string) returns (r: Option<Record>)
      requires Valid()
      modifies this
      ensures Valid()
      ensures r.Some? <==> name in old(data)
      ensures r.Some? ==> r.value == old(data)[name] && |data| == |old(data)| - 1
      ensures data == old(data) - {name} && keys == RemoveFirst(old(keys), name)
      ensures Find(name) == None
    {
      if name !in data {
        return None;
      }
      var record := data[name];
      RemoveFirstDistinct(keys, name);
      keys := RemoveFirst(keys, name);
      data := data - {name};
      return Some(record);
    }

    /** `find(name)`: an exact-key lookup, nothing when absent. */
    function Find(name: string): (r: Option<Record>)
      reads this
      ensures r.Some? <==> name in data
      ensures r.Some? ==> r.value == data[name]
      ensures Valid() && r.Some? ==> r.value.name.value == name
    {
      if name in data then Some(data[name]) else None
    }
  }
}
