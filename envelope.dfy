/** The `{ success, message, data, errors }` response envelope of every
    controller handler, and the field-level validation error it carries. */
module Envelope {

  /** One entry of `validationResult(req).array()`: the offending field and
      the rule's message. */
  datatype FieldError = FieldError(field: string, message: string)

  /** `Ok` is a `success: true` reply (`message` is "" where the handler
      sends none); `Err` is a `success: false` reply with its status code
      and, for a validation failure, the error list. */
  datatype Reply<T> =
    | Ok(status: int, message: string, data: T)
    | Err(status: int, message: string, errors: seq<FieldError>)

  const ValidationFailed := "Validation errors"

  /** The fields named in an error list. */
  function Fields(errors: seq<FieldError>): set<string>
  {
    set e | e in errors :: e.field
  }

  lemma FieldsAppend(a: seq<FieldError>, b: seq<FieldError>)
    ensures Fields(a + b) == Fields(a) + Fields(b)
  {
    assert forall e :: e in a + b <==> e in a || e in b;
  }

  /** The entries of an error list about one field, in their order. */
  function ErrorsFor(errors: seq<FieldError>, name: string): seq<FieldError>
  {
    if errors == [] then []
    else (if errors[0].field == name then [errors[0]] else []) + ErrorsFor(errors[1..], name)
  }

  lemma {:induction false} ErrorsForAppend(a: seq<FieldError>, b: seq<FieldError>, name: string)
    ensures ErrorsFor(a + b, name) == ErrorsFor(a, name) + ErrorsFor(b, name)
  {
    if a == [] {
      assert a + b == b;
    } else {
      var head := if a[0].field == name then [a[0]] else [];
      assert (a + b)[0] == a[0] && (a + b)[1..] == a[1..] + b;
      assert ErrorsFor(a + b, name) == head + ErrorsFor(a[1..] + b, name);
      ErrorsForAppend(a[1..], b, name);
      assert ErrorsFor(a, name) == head + ErrorsFor(a[1..], name);
      assert head + (ErrorsFor(a[1..], name) + ErrorsFor(b, name))
          == (head + ErrorsFor(a[1..], name)) + ErrorsFor(b, name);
    }
  }

  /** A list whose entries all name one field is its own selection for
      that field and has nothing for any other. */
  lemma {:induction false} ErrorsForOneField(errors: seq<FieldError>, name: string)
    requires forall e :: e in errors ==> e.field == name
    ensures ErrorsFor(errors, name) == errors
    ensures forall other :: other != name ==> ErrorsFor(errors, other) == []
  {
    if errors != [] {
      assert errors[0] in errors;
      ErrorsForOneField(errors[1..], name);
      assert errors == [errors[0]] + errors[1..];
    }
  }

  lemma AppendFive(p1: seq<FieldError>, p2: seq<FieldError>, p3: seq<FieldError>,
                   p4: seq<FieldError>, p5: seq<FieldError>, name: string)
    ensures ErrorsFor(p1 + p2 + p3 + p4 + p5, name)
      == ErrorsFor(p1, name) + ErrorsFor(p2, name) + ErrorsFor(p3, name)
       + ErrorsFor(p4, name) + ErrorsFor(p5, name)
  {
    ErrorsForAppend(p1, p2, name);
    ErrorsForAppend(p1 + p2, p3, name);
    ErrorsForAppend(p1 + p2 + p3, p4, name);
    ErrorsForAppend(p1 + p2 + p3 + p4, p5, name);
  }

  /** Five chains on five distinct fields, one after the other: the errors
      about each field are exactly those of its own chain. */
  lemma FiveSelect(p1: seq<FieldError>, p2: seq<FieldError>, p3: seq<FieldError>,
                   p4: seq<FieldError>, p5: seq<FieldError>,
                   n1: string, n2: string, n3: string, n4: string, n5: string)
    requires n1 != n2 && n1 != n3 && n1 != n4 && n1 != n5 && n2 != n3
    requires n2 != n4 && n2 != n5 && n3 != n4 && n3 != n5 && n4 != n5
    requires forall e :: e in p1 ==> e.field == n1
    requires forall e :: e in p2 ==> e.field == n2
    requires forall e :: e in p3 ==> e.field == n3
    requires forall e :: e in p4 ==> e.field == n4
    requires forall e :: e in p5 ==> e.field == n5
    ensures ErrorsFor(p1 + p2 + p3 + p4 + p5, n1) == p1
    ensures ErrorsFor(p1 + p2 + p3 + p4 + p5, n2) == p2
    ensures ErrorsFor(p1 + p2 + p3 + p4 + p5, n3) == p3
    ensures ErrorsFor(p1 + p2 + p3 + p4 + p5, n4) == p4
    ensures ErrorsFor(p1 + p2 + p3 + p4 + p5, n5) == p5
  {
    ErrorsForOneField(p1, n1);
    ErrorsForOneField(p2, n2);
    ErrorsForOneField(p3, n3);
    ErrorsForOneField(p4, n4);
    ErrorsForOneField(p5, n5);
    assert ErrorsFor(p1 + p2 + p3 + p4 + p5, n1) == p1 by {
      AppendFive(p1, p2, p3, p4, p5, n1);
      assert ErrorsFor(p2, n1) == [];
      assert ErrorsFor(p3, n1) == [];
      assert ErrorsFor(p4, n1) == [];
      assert ErrorsFor(p5, n1) == [];
      assert p1 + [] + [] + [] + [] == p1;
    }
    assert ErrorsFor(p1 + p2 + p3 + p4 + p5, n2) == p2 by {
      AppendFive(p1, p2, p3, p4, p5, n2);
      assert ErrorsFor(p1, n2) == [];
      assert ErrorsFor(p3, n2) == [];
      assert ErrorsFor(p4, n2) == [];
      assert ErrorsFor(p5, n2) == [];
      assert [] + p2 + [] + [] + [] == p2;
    }
    assert ErrorsFor(p1 + p2 + p3 + p4 + p5, n3) == p3 by {
      AppendFive(p1, p2, p3, p4, p5, n3);
      assert ErrorsFor(p1, n3) == [];
      assert ErrorsFor(p2, n3) == [];
      assert ErrorsFor(p4, n3) == [];
      assert ErrorsFor(p5, n3) == [];
      assert [] + [] + p3 + [] + [] == p3;
    }
    assert ErrorsFor(p1 + p2 + p3 + p4 + p5, n4) == p4 by {
      AppendFive(p1, p2, p3, p4, p5, n4);
      assert ErrorsFor(p1, n4) == [];
      assert ErrorsFor(p2, n4) == [];
      assert ErrorsFor(p3, n4) == [];
      assert ErrorsFor(p5, n4) == [];
      assert [] + [] + [] + p4 + [] == p4;
    }
    assert ErrorsFor(p1 + p2 + p3 + p4 + p5, n5) == p5 by {
      AppendFive(p1, p2, p3, p4, p5, n5);
      assert ErrorsFor(p1, n5) == [];
      assert ErrorsFor(p2, n5) == [];
      assert ErrorsFor(p3, n5) == [];
      assert ErrorsFor(p4, n5) == [];
      assert [] + [] + [] + [] + p5 == p5;
    }
  }

  /** Five rule chains on five distinct fields, each reporting its own
      field exactly when it fails: a field is among all reported fields
      exactly when its chain fails. */
  lemma FiveChains(n1: string, s1: set<string>, c1: bool, n2: string, s2: set<string>, c2: bool,
                   n3: string, s3: set<string>, c3: bool, n4: string, s4: set<string>, c4: bool,
                   n5: string, s5: set<string>, c5: bool)
    requires n1 != n2 && n1 != n3 && n1 != n4 && n1 != n5 && n2 != n3
    requires n2 != n4 && n2 != n5 && n3 != n4 && n3 != n5 && n4 != n5
    requires s1 == (if c1 then {n1} else {}) && s2 == (if c2 then {n2} else {})
    requires s3 == (if c3 then {n3} else {}) && s4 == (if c4 then {n4} else {})
    requires s5 == (if c5 then {n5} else {})
    ensures var all := s1 + s2 + s3 + s4 + s5;
      && (n1 in all <==> c1) && (n2 in all <==> c2) && (n3 in all <==> c3)
      && (n4 in all <==> c4) && (n5 in all <==> c5)
  {
  }
}
