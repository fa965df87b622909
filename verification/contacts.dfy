/** The contact service: phone and email checks, creating and updating a
    contact, bulk deletion, duplicate detection by phone number and the
    merge of two contacts.  A user's contacts are a map from contact id to
    contact; the ids the database assigns are inputs. */
module Contacts {
  import opened Common
  import opened Text

  datatype Contact = Contact(
    id: string,
    phoneNumber: string,
    name: Option<string>,
    email: Option<string>,
    company: Option<string>,
    department: Option<string>,
    timezone: Option<string>,
    businessName: Option<string>,
    messageCount: Option<int>,
    totalInteractions: Option<int>)

  type Store = map<string, Contact>

  // ---------------------------------------------------------------
  // Phone numbers
  // ---------------------------------------------------------------

  /** `/^\+?[1-9]\d{1,14}$/`: an optional plus, then two to fifteen
      digits of which the first is not zero. */
  predicate ValidPhone(s: string)
  {
    var body := PhoneDigits(s);
    2 <= |body| <= 15 && AllDigits(body) && body[0] != '0'
  }

  /** The number without its optional plus. */
  function PhoneDigits(s: string): string
  {
    if |s| > 0 && s[0] == '+' then s[1..] else s
  }

  /** A valid phone number is a number from 10 to 10^15 - 1 written out in
      decimal, with or without a plus in front, and every such number is
      valid. */
  lemma PhoneIsNumber(s: string)
    ensures ValidPhone(s) <==>
      exists n: nat :: 10 <= n < Pow10(15) && (s == NatToDigits(n) || s == "+" + NatToDigits(n))
  {
    if ValidPhone(s) {
      var body := PhoneDigits(s);
      BodyIsNumber(body);
      var n := DigitsValue(body);
      assert s == NatToDigits(n) || s == "+" + NatToDigits(n);
    }
    if exists n: nat :: 10 <= n < Pow10(15) && (s == NatToDigits(n) || s == "+" + NatToDigits(n)) {
      var n: nat :| 10 <= n < Pow10(15) && (s == NatToDigits(n) || s == "+" + NatToDigits(n));
      NumberIsValidPhone(n);
    }
  }

  lemma BodyIsNumber(body: string)
    requires 2 <= |body| <= 15 && AllDigits(body) && body[0] != '0'
    ensures 10 <= DigitsValue(body) < Pow10(15) && NatToDigits(DigitsValue(body)) == body
  {
    CanonicalDigits(body);
    DigitsValueBound(body);
    PowMonotone(|body|, 15);
    PowMonotone(1, |body| - 1);
  }

  lemma NumberIsValidPhone(n: nat)
    requires 10 <= n < Pow10(15)
    ensures ValidPhone(NatToDigits(n)) && ValidPhone("+" + NatToDigits(n))
  {
    var d := NatToDigits(n);
    NatToDigitsLength(n, 15);
    DigitsValueBound(d);
    assert PhoneDigits("+" + d) == d;
  }

  // ---------------------------------------------------------------
  // Email addresses
  // ---------------------------------------------------------------

  /** `[^\s@]`. */
  predicate EmailChar(c: char) { !IsSpace(c) && c != '@' }

  predicate EmailPart(s: string) { |s| > 0 && forall i :: 0 <= i < |s| ==> EmailChar(s[i]) }

  /** What follows the `@`: `[^\s@]+\.[^\s@]+`. */
  predicate Domain(d: string)
  {
    && (forall i :: 0 <= i < |d| ==> EmailChar(d[i]))
    && exists j :: 0 < j < |d| - 1 && d[j] == '.'
  }

  /** `/^[^\s@]+@[^\s@]+\.[^\s@]+$/`, read position by position. */
  predicate ValidEmail(s: string)
  {
    exists k :: 0 < k < |s| && s[k] == '@' && EmailPart(s[..k]) && Domain(s[k + 1..])
  }

  /** The pattern as a shape: a local part, an `@`, and a domain part made
      of two pieces joined by a dot. */
  ghost predicate EmailShape(s: string)
  {
    exists a, d :: EmailPart(a) && DomainShape(d) && s == a + "@" + d
  }

  ghost predicate DomainShape(d: string)
  {
    exists b, c :: EmailPart(b) && EmailPart(c) && d == b + "." + c
  }

  lemma EmailIsShape(s: string)
    ensures ValidEmail(s) <==> EmailShape(s)
  {
    if ValidEmail(s) {
      ValidEmailHasShape(s);
    }
    if EmailShape(s) {
      var a, d :| EmailPart(a) && DomainShape(d) && s == a + "@" + d;
      var b, c :| EmailPart(b) && EmailPart(c) && d == b + "." + c;
      ShapeIsValidEmail(a, b, c);
    }
  }

  lemma ValidEmailHasShape(s: string)
    requires ValidEmail(s)
    ensures EmailShape(s)
  {
    var k :| 0 < k < |s| && s[k] == '@' && EmailPart(s[..k]) && Domain(s[k + 1..]);
    var a, d := s[..k], s[k + 1..];
    assert s == a + "@" + d;
    DomainHasShape(d);
  }

  lemma DomainHasShape(d: string)
    requires Domain(d)
    ensures DomainShape(d)
  {
    var j :| 0 < j < |d| - 1 && d[j] == '.';
    var b, c := d[..j], d[j + 1..];
    assert d == b + "." + c;
    PartOfDomain(d, 0, j);
    PartOfDomain(d, j + 1, |d|);
    assert b == d[0..j];
  }

  lemma PartOfDomain(d: string, lo: int, hi: int)
    requires 0 <= lo < hi <= |d|
    requires forall i :: 0 <= i < |d| ==> EmailChar(d[i])
    ensures EmailPart(d[lo..hi])
  {
    var p := d[lo..hi];
    forall i | 0 <= i < |p| ensures EmailChar(p[i]) {
      assert p[i] == d[lo + i];
    }
  }

  lemma ShapeIsValidEmail(a: string, b: string, c: string)
    requires EmailPart(a) && EmailPart(b) && EmailPart(c)
    ensures ValidEmail(a + "@" + (b + "." + c))
  {
    var s := a + "@" + (b + "." + c);
    var k := |a|;
    assert s[..k] == a;
    var d := s[k + 1..];
    assert d == b + "." + c;
    DomainOfParts(b, c);
    assert 0 < k < |s| && s[k] == '@' && EmailPart(s[..k]) && Domain(s[k + 1..]);
  }

  lemma DomainOfParts(b: string, c: string)
    requires EmailPart(b) && EmailPart(c)
    ensures Domain(b + "." + c)
  {
    var d := b + "." + c;
    assert d[|b|] == '.';
    forall i | 0 <= i < |d|
      ensures EmailChar(d[i])
    {
      if i < |b| {
        assert d[i] == b[i];
      } else if i > |b| {
        assert d[i] == c[i - |b| - 1];
      }
    }
  }

  /** A valid address holds exactly one `@`. */
  lemma EmailHasOneAt(s: string)
    requires ValidEmail(s)
    ensures exists k :: 0 <= k < |s| && s[k] == '@' && forall i :: 0 <= i < |s| && i != k ==> s[i] != '@'
  {
    var k :| 0 < k < |s| && s[k] == '@' && EmailPart(s[..k]) && Domain(s[k + 1..]);
    forall i | 0 <= i < |s| && i != k
      ensures s[i] != '@'
    {
      if i < k {
        assert s[i] == s[..k][i];
      } else {
        assert s[i] == s[k + 1..][i - k - 1];
      }
    }
  }

  // ---------------------------------------------------------------
  // Create and update
  // ---------------------------------------------------------------

  /** No two contacts share a phone number. */
  predicate UniquePhones(store: Store)
  {
    forall a, b :: a in store && b in store && store[a].phoneNumber == store[b].phoneNumber ==> a == b
  }

  predicate HasPhone(store: Store, phone: string)
  {
    exists id :: id in store && store[id].phoneNumber == phone
  }

  function NewContact(id: string, phone: string, name: Option<string>, email: Option<string>): Contact
  {
    Contact(id, phone, name, email, None, None, None, None, None, None)
  }

  /** `createContact`: the phone must be well formed and not yet taken; the
      email is not checked here.  `id` is the id the database assigns. */
  function CreateContact(store: Store, id: string, phone: string, name: Option<string>, email: Option<string>)
    : (r: Result<Store>)
    requires id !in store
    ensures !ValidPhone(phone) ==> r == Failure(Validation("Invalid phone number format. Use E.164 format (e.g., +1234567890)"))
    ensures ValidPhone(phone) && HasPhone(store, phone) ==> r == Failure(Conflict("Contact with phone " + phone + " already exists"))
    ensures r.Success? <==> ValidPhone(phone) && !HasPhone(store, phone)
    ensures r.Success? ==> r.value == store[id := NewContact(id, phone, name, email)]
  {
    if !ValidPhone(phone) then
      Failure(Validation("Invalid phone number format. Use E.164 format (e.g., +1234567890)"))
    else if HasPhone(store, phone) then
      Failure(Conflict("Contact with phone " + phone + " already exists"))
    else
      Success(store[id := NewContact(id, phone, name, email)])
  }

  /** Creating keeps phone numbers unique. */
  lemma CreateKeepsPhonesUnique(store: Store, id: string, phone: string, name: Option<string>, email: Option<string>)
    requires id !in store && UniquePhones(store)
    requires CreateContact(store, id, phone, name, email).Success?
    ensures UniquePhones(CreateContact(store, id, phone, name, email).value)
  {
  }

  /** One field of a partial update: left as stored, or given a new value
      (for a nullable field, `Set(None)` clears it). */
  datatype Update<T> = Keep | Set(value: T)

  function Apply<T>(u: Update<T>, current: T): T
  {
    if u.Set? then u.value else current
  }

  /** The `Partial<Contact>` an update may carry: every field but the id. */
  datatype ContactPatch = ContactPatch(
    phoneNumber: Update<string>,
    name: Update<Option<string>>,
    email: Update<Option<string>>,
    company: Update<Option<string>>,
    department: Update<Option<string>>,
    timezone: Update<Option<string>>,
    businessName: Update<Option<string>>,
    messageCount: Update<Option<int>>,
    totalInteractions: Update<Option<int>>)

  const NoChange := ContactPatch(Keep, Keep, Keep, Keep, Keep, Keep, Keep, Keep, Keep)

  /** `if (data.email)`: the email is checked only when it is given and
      truthy. */
  predicate EmailToCheck(patch: ContactPatch)
  {
    patch.email.Set? && patch.email.value.Some? && patch.email.value.value != ""
  }

  /** `updateContact`: the contact must exist and a truthy email must be
      well formed; every given field, the phone number included, then
      replaces the stored one. */
  function UpdateContact(contact: Option<Contact>, patch: ContactPatch): (r: Result<Contact>)
    ensures contact.None? ==> r == Failure(NotFound("Contact"))
    ensures r.Success? <==> contact.Some? && (EmailToCheck(patch) ==> ValidEmail(patch.email.value.value))
    ensures contact.Some? && !r.Success? ==> r == Failure(Validation("Invalid email format"))
    ensures r.Success? ==>
      var c := contact.value;
      && r.value.id == c.id
      && r.value.phoneNumber == Apply(patch.phoneNumber, c.phoneNumber)
      && r.value.name == Apply(patch.name, c.name)
      && r.value.email == Apply(patch.email, c.email)
      && r.value.company == Apply(patch.company, c.company)
      && r.value.department == Apply(patch.department, c.department)
      && r.value.timezone == Apply(patch.timezone, c.timezone)
      && r.value.businessName == Apply(patch.businessName, c.businessName)
      && r.value.messageCount == Apply(patch.messageCount, c.messageCount)
      && r.value.totalInteractions == Apply(patch.totalInteractions, c.totalInteractions)
  {
    if contact.None? then Failure(NotFound("Contact"))
    else if EmailToCheck(patch) && !ValidEmail(patch.email.value.value) then
      Failure(Validation("Invalid email format"))
    else
      var c := contact.value;
      Success(Contact(c.id,
        Apply(patch.phoneNumber, c.phoneNumber),
        Apply(patch.name, c.name),
        Apply(patch.email, c.email),
        Apply(patch.company, c.company),
        Apply(patch.department, c.department),
        Apply(patch.timezone, c.timezone),
        Apply(patch.businessName, c.businessName),
        Apply(patch.messageCount, c.messageCount),
        Apply(patch.totalInteractions, c.totalInteractions)))
  }

  /** An update that changes nothing returns the stored contact. */
  lemma UpdateNothing(c: Contact)
    ensures UpdateContact(Some(c), NoChange) == Success(c)
  {
  }

  /** Unlike `createContact`, an update takes any phone number, well formed
      or not and taken or not, and clearing the email is always accepted:
      writing the result back can leave two contacts with one phone. */
  lemma {:induction false} UpdateSkipsPhoneChecks(store: Store, id: string, other: string, phone: string)
    requires id in store && other in store && id != other && store[other].phoneNumber == phone
    ensures var r := UpdateContact(Some(store[id]), NoChange.(phoneNumber := Set(phone), email := Set(None)));
      && r.Success? && r.value.phoneNumber == phone && r.value.email == None
      && !UniquePhones(store[id := r.value])
  {
    var r := UpdateContact(Some(store[id]), NoChange.(phoneNumber := Set(phone), email := Set(None)));
    var s2 := store[id := r.value];
    assert s2[id].phoneNumber == s2[other].phoneNumber;
  }

  // ---------------------------------------------------------------
  // Bulk delete
  // ---------------------------------------------------------------

  /** The ids of a list, as a set. */
  function IdSet(ids: seq<string>): (r: set<string>)
    ensures forall i :: i in r <==> i in ids
  {
    if |ids| == 0 then {} else IdSet(ids[..|ids| - 1]) + {ids[|ids| - 1]}
  }

  /** One more id removes one more stored contact exactly when it is stored
      and not yet removed. */
  lemma CountStep(keys: set<string>, before: set<string>, id: string)
    ensures id in keys && id !in before ==> |keys * (before + {id})| == |keys * before| + 1
    ensures !(id in keys && id !in before) ==> |keys * (before + {id})| == |keys * before|
  {
    if id in keys && id !in before {
      assert keys * (before + {id}) == (keys * before) + {id};
    } else {
      assert keys * (before + {id}) == keys * before;
    }
  }

  /** The store with the given ids removed. */
  function Without(store: Store, gone: set<string>): (r: Store)
    ensures r.Keys == store.Keys - gone
    ensures forall k :: k in r ==> r[k] == store[k]
  {
    map k | k in store && k !in gone :: store[k]
  }

  lemma WithoutStep(store: Store, gone: set<string>, id: string)
    ensures id in Without(store, gone) ==> Without(store, gone) - {id} == Without(store, gone + {id})
    ensures id !in Without(store, gone) ==> Without(store, gone) == Without(store, gone + {id})
  {
    var before, after := Without(store, gone), Without(store, gone + {id});
    if id in before {
      assert (before - {id}).Keys == after.Keys;
    } else {
      assert before.Keys == after.Keys;
    }
  }

  /** `bulkDelete`: each id is deleted in turn; deleting an id that is not
      (or no longer) there fails, is logged and is not counted. */
  method BulkDelete(store: Store, ids: seq<string>) returns (s: Store, deletedCount: nat)
    ensures s == Without(store, IdSet(ids))
    ensures s.Keys == store.Keys - IdSet(ids)
    ensures deletedCount == |store.Keys * IdSet(ids)|
    ensures deletedCount <= |ids|
  {
    s, deletedCount := store, 0;
    var n := 0;
    assert s == Without(store, {});
    while n < |ids|
      invariant 0 <= n <= |ids|
      invariant s == Without(store, IdSet(ids[..n]))
      invariant deletedCount == |store.Keys * IdSet(ids[..n])|
      invariant deletedCount <= n
    {
      var id := ids[n];
      var gone := IdSet(ids[..n]);
      assert ids[..n + 1][..n] == ids[..n];
      assert IdSet(ids[..n + 1]) == gone + {id};
      CountStep(store.Keys, gone, id);
      WithoutStep(store, gone, id);
      if id in s {
        s := s - {id};
        deletedCount := deletedCount + 1;
      }
      n := n + 1;
    }
    assert ids[..n] == ids;
  }

  // ---------------------------------------------------------------
  // Duplicates
  // ---------------------------------------------------------------

  /** `findDuplicates` looks at the first 1000 contacts of a search. */
  const SearchLimit: nat := 1000

  /** The distinct phone numbers, in the order they first occur (the
      insertion order of the `Map`). */
  function PhonesInOrder(cs: seq<Contact>): seq<string>
  {
    if |cs| == 0 then []
    else
      var prev := PhonesInOrder(cs[..|cs| - 1]);
      var p := cs[|cs| - 1].phoneNumber;
      if p in prev then prev else prev + [p]
  }

  /** The contacts with phone number `p`, in list order. */
  function WithPhone(cs: seq<Contact>, p: string): seq<Contact>
  {
    if |cs| == 0 then []
    else WithPhone(cs[..|cs| - 1], p) + (if cs[|cs| - 1].phoneNumber == p then [cs[|cs| - 1]] else [])
  }

  datatype DuplicateGroup = DuplicateGroup(phoneNumber: string, contacts: seq<Contact>)

  /** The groups of the given phones that hold more than one contact. */
  function Groups(phones: seq<string>, cs: seq<Contact>): seq<DuplicateGroup>
  {
    if |phones| == 0 then []
    else
      var rest := Groups(phones[..|phones| - 1], cs);
      var p := phones[|phones| - 1];
      if |WithPhone(cs, p)| > 1 then rest + [DuplicateGroup(p, WithPhone(cs, p))] else rest
  }

  function Duplicates(cs: seq<Contact>): seq<DuplicateGroup>
  {
    Groups(PhonesInOrder(cs), cs)
  }

  /** A phone that has not occurred has no contacts. */
  lemma {:induction false} WithPhoneEmpty(cs: seq<Contact>, p: string)
    requires p !in PhonesInOrder(cs)
    ensures WithPhone(cs, p) == []
  {
    if |cs| > 0 {
      WithPhoneEmpty(cs[..|cs| - 1], p);
    }
  }

  /** `findDuplicates`: group the contacts by phone number in a map that
      remembers insertion order, then keep the groups of more than one. */
  method FindDuplicates(all: seq<Contact>) returns (dups: seq<DuplicateGroup>)
    ensures dups == Duplicates(all[..Min(|all|, SearchLimit)])
  {
    var cs := all[..Min(|all|, SearchLimit)];
    var order, groups := GroupByPhone(cs);
    dups := [];
    var j := 0;
    while j < |order|
      invariant 0 <= j <= |order|
      invariant dups == Groups(order[..j], cs)
    {
      var p := order[j];
      assert order[..j + 1][..j] == order[..j];
      if |groups[p]| > 1 {
        dups := dups + [DuplicateGroup(p, groups[p])];
      }
      j := j + 1;
    }
    assert order[..j] == order;
  }

  /** The first loop of `findDuplicates`: the map's keys in insertion order,
      and each key's contacts. */
  method GroupByPhone(cs: seq<Contact>) returns (order: seq<string>, groups: map<string, seq<Contact>>)
    ensures order == PhonesInOrder(cs)
    ensures forall p :: p in groups <==> p in order
    ensures forall p :: p in groups ==> groups[p] == WithPhone(cs, p)
  {
    order, groups := [], map[];
    var i := 0;
    while i < |cs|
      invariant 0 <= i <= |cs|
      invariant order == PhonesInOrder(cs[..i])
      invariant forall p :: p in groups <==> p in order
      invariant forall p :: p in groups ==> groups[p] == WithPhone(cs[..i], p)
    {
      var c := cs[i];
      WithPhoneStep(cs, i);
      if c.phoneNumber !in groups {
        WithPhoneEmpty(cs[..i], c.phoneNumber);
        groups := groups[c.phoneNumber := []];
        order := order + [c.phoneNumber];
      }
      groups := groups[c.phoneNumber := groups[c.phoneNumber] + [c]];
      i := i + 1;
    }
    assert cs[..i] == cs;
  }

  /** One more contact extends its own phone's group and the phone order,
      and no other group. */
  lemma WithPhoneStep(cs: seq<Contact>, i: int)
    requires 0 <= i < |cs|
    ensures forall p :: WithPhone(cs[..i + 1], p) == WithPhone(cs[..i], p) + (if cs[i].phoneNumber == p then [cs[i]] else [])
    ensures PhonesInOrder(cs[..i + 1]) ==
      if cs[i].phoneNumber in PhonesInOrder(cs[..i]) then PhonesInOrder(cs[..i]) else PhonesInOrder(cs[..i]) + [cs[i].phoneNumber]
  {
    assert cs[..i + 1][..i] == cs[..i];
  }

  /** Every group reported holds all the contacts of its phone number, and
      there are at least two. */
  lemma {:induction false} GroupsSound(phones: seq<string>, cs: seq<Contact>, k: int)
    requires 0 <= k < |Groups(phones, cs)|
    ensures var g := Groups(phones, cs)[k];
      g.phoneNumber in phones && g.contacts == WithPhone(cs, g.phoneNumber) && |g.contacts| >= 2
  {
    var rest := Groups(phones[..|phones| - 1], cs);
    if k < |rest| {
      GroupsSound(phones[..|phones| - 1], cs, k);
    }
  }

  /** Every listed phone with two or more contacts is reported. */
  lemma {:induction false} GroupsComplete(phones: seq<string>, cs: seq<Contact>, p: string)
    requires p in phones && |WithPhone(cs, p)| >= 2
    ensures DuplicateGroup(p, WithPhone(cs, p)) in Groups(phones, cs)
  {
    var init := phones[..|phones| - 1];
    if phones[|phones| - 1] != p {
      assert p in init by {
        var i :| 0 <= i < |phones| && phones[i] == p;
        assert init[i] == p;
      }
      GroupsComplete(init, cs, p);
    }
  }

  /** Every contact's phone number occurs in the phone order. */
  lemma {:induction false} PhonesInOrderComplete(cs: seq<Contact>, i: int)
    requires 0 <= i < |cs|
    ensures cs[i].phoneNumber in PhonesInOrder(cs)
  {
    if i < |cs| - 1 {
      PhonesInOrderComplete(cs[..|cs| - 1], i);
    }
  }

  /** No phone number occurs twice in the phone order, so no two groups
      share one. */
  lemma {:induction false} PhonesInOrderDistinct(cs: seq<Contact>)
    ensures forall i, j :: 0 <= i < j < |PhonesInOrder(cs)| ==> PhonesInOrder(cs)[i] != PhonesInOrder(cs)[j]
  {
    if |cs| > 0 {
      PhonesInOrderDistinct(cs[..|cs| - 1]);
    }
  }

  /** The report: a phone number is reported exactly when at least two of
      the contacts examined carry it, and then with all of them. */
  lemma DuplicatesExact(cs: seq<Contact>, p: string)
    ensures (exists k :: 0 <= k < |Duplicates(cs)| && Duplicates(cs)[k].phoneNumber == p) <==> |WithPhone(cs, p)| >= 2
    ensures forall k :: 0 <= k < |Duplicates(cs)| ==>
      Duplicates(cs)[k].contacts == WithPhone(cs, Duplicates(cs)[k].phoneNumber) && |Duplicates(cs)[k].contacts| >= 2
  {
    var phones := PhonesInOrder(cs);
    forall k | 0 <= k < |Duplicates(cs)|
      ensures Duplicates(cs)[k].contacts == WithPhone(cs, Duplicates(cs)[k].phoneNumber) && |Duplicates(cs)[k].contacts| >= 2
    {
      GroupsSound(phones, cs, k);
    }
    if |WithPhone(cs, p)| >= 2 {
      if p !in phones {
        WithPhoneEmpty(cs, p);
      }
      GroupsComplete(phones, cs, p);
      var k :| 0 <= k < |Duplicates(cs)| && Duplicates(cs)[k] == DuplicateGroup(p, WithPhone(cs, p));
    }
  }

  // ---------------------------------------------------------------
  // Merge
  // ---------------------------------------------------------------

  predicate Truthy(x: Option<string>) { x.Some? && x.value != "" }

  /** A field of the merge: the primary's value unless it is empty and the
      secondary has one. */
  function Fill(primary: Option<string>, secondary: Option<string>): (r: Option<string>)
    ensures Truthy(primary) ==> r == primary
    ensures !Truthy(primary) && Truthy(secondary) ==> r == secondary
    ensures !Truthy(primary) && !Truthy(secondary) ==> r == primary
  {
    if !Truthy(primary) && Truthy(secondary) then secondary else primary
  }

  /** The merged primary: the six descriptive fields filled from the
      secondary, the two counters added. */
  function MergeFields(p: Contact, s: Contact): (m: Contact)
    ensures m.id == p.id && m.phoneNumber == p.phoneNumber
    ensures m.messageCount == Some(OrInt(p.messageCount, 0) + OrInt(s.messageCount, 0))
    ensures m.totalInteractions == Some(OrInt(p.totalInteractions, 0) + OrInt(s.totalInteractions, 0))
    ensures m.name == Fill(p.name, s.name) && m.email == Fill(p.email, s.email)
    ensures m.company == Fill(p.company, s.company) && m.department == Fill(p.department, s.department)
    ensures m.timezone == Fill(p.timezone, s.timezone) && m.businessName == Fill(p.businessName, s.businessName)
  {
    p.(name := Fill(p.name, s.name),
       email := Fill(p.email, s.email),
       company := Fill(p.company, s.company),
       department := Fill(p.department, s.department),
       timezone := Fill(p.timezone, s.timezone),
       businessName := Fill(p.businessName, s.businessName),
       messageCount := Some(OrInt(p.messageCount, 0) + OrInt(s.messageCount, 0)),
       totalInteractions := Some(OrInt(p.totalInteractions, 0) + OrInt(s.totalInteractions, 0)))
  }

  /** The merge keeps every non-empty field of the primary, takes the
      secondary's value where the primary's is empty and the secondary's is
      not, and loses no field that either contact had. */
  lemma MergeLosesNothing(p: Contact, s: Contact)
    ensures var m := MergeFields(p, s);
      && (!Truthy(p.name) && Truthy(s.name) ==> m.name == s.name)
      && (Truthy(p.name) ==> m.name == p.name) && (Truthy(p.name) || Truthy(s.name) <==> Truthy(m.name))
      && (!Truthy(p.email) && Truthy(s.email) ==> m.email == s.email)
      && (Truthy(p.email) ==> m.email == p.email) && (Truthy(p.email) || Truthy(s.email) <==> Truthy(m.email))
      && (!Truthy(p.company) && Truthy(s.company) ==> m.company == s.company)
      && (Truthy(p.company) ==> m.company == p.company) && (Truthy(p.company) || Truthy(s.company) <==> Truthy(m.company))
      && (!Truthy(p.department) && Truthy(s.department) ==> m.department == s.department)
      && (Truthy(p.department) ==> m.department == p.department) && (Truthy(p.department) || Truthy(s.department) <==> Truthy(m.department))
      && (!Truthy(p.timezone) && Truthy(s.timezone) ==> m.timezone == s.timezone)
      && (Truthy(p.timezone) ==> m.timezone == p.timezone) && (Truthy(p.timezone) || Truthy(s.timezone) <==> Truthy(m.timezone))
      && (!Truthy(p.businessName) && Truthy(s.businessName) ==> m.businessName == s.businessName)
      && (Truthy(p.businessName) ==> m.businessName == p.businessName) && (Truthy(p.businessName) || Truthy(s.businessName) <==> Truthy(m.businessName))
  {
  }

  /** `mergeContacts` as written: look both up, update the primary, delete
      the secondary, and return whatever is stored under the primary's id
      afterwards. */
  function MergeContacts(store: Store, primaryId: string, secondaryId: string): (r: Result<(Store, Option<Contact>)>)
    ensures primaryId !in store ==> r == Failure(NotFound("Primary contact"))
    ensures primaryId in store && secondaryId !in store ==> r == Failure(NotFound("Secondary contact"))
    ensures r.Success? <==> primaryId in store && secondaryId in store
    ensures r.Success? ==> r.value.0.Keys == store.Keys - {secondaryId}
  {
    if primaryId !in store then Failure(NotFound("Primary contact"))
    else if secondaryId !in store then Failure(NotFound("Secondary contact"))
    else
      var merged := MergeFields(store[primaryId], store[secondaryId]);
      var after := store[primaryId := merged] - {secondaryId};
      Success((after, if primaryId in after then Some(after[primaryId]) else None))
  }

  /** Merging a contact with itself deletes it and returns nothing. */
  lemma MergeWithSelfDeletes(store: Store, id: string)
    requires id in store
    ensures MergeContacts(store, id, id) == Success((store - {id}, None))
  {
    var after := store[id := MergeFields(store[id], store[id])] - {id};
    assert after == store - {id};
  }

  /** `mergeContacts` with the two ids required to differ. */
  function MergeDistinct(store: Store, primaryId: string, secondaryId: string): (r: Result<(Store, Option<Contact>)>)
    ensures primaryId == secondaryId ==> r == Failure(Validation("Cannot merge a contact with itself"))
    ensures primaryId != secondaryId ==> r == MergeContacts(store, primaryId, secondaryId)
    ensures r.Success? ==>
      && primaryId != secondaryId
      && r.value.1 == Some(MergeFields(store[primaryId], store[secondaryId]))
      && r.value.0 == store[primaryId := MergeFields(store[primaryId], store[secondaryId])] - {secondaryId}
  {
    if primaryId == secondaryId then Failure(Validation("Cannot merge a contact with itself"))
    else MergeContacts(store, primaryId, secondaryId)
  }

  /** A successful merge keeps the primary, with its merged fields, drops
      the secondary, leaves every other contact alone and keeps phone
      numbers unique. */
  lemma MergeDistinctKeepsStore(store: Store, primaryId: string, secondaryId: string)
    requires UniquePhones(store)
    requires MergeDistinct(store, primaryId, secondaryId).Success?
    ensures var (after, c) := MergeDistinct(store, primaryId, secondaryId).value;
      && primaryId in after && secondaryId !in after
      && after.Keys == store.Keys - {secondaryId}
      && (forall k :: k in after && k != primaryId ==> after[k] == store[k])
      && UniquePhones(after)
      && c == Some(after[primaryId])
  {
  }
}
