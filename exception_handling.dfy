/**
 * GlobalExceptionHandler.handleValidationErrors: the advice that turns a
 * failed @Validated request body into a 400 response whose body maps each
 * field to a message, in a LinkedHashMap.
 */
module ExceptionHandling {
  import opened Wrappers
  import opened Members
  import opened Binding
  import opened LinkedHashMaps

  /** HttpStatus.OK and HttpStatus.BAD_REQUEST. */
  const Ok: int := 200
  const BadRequest: int := 400

  /** A response body: a field-to-message map (serialised in key order) or plain text. */
  datatype Body = FieldMessages(entries: seq<(string, string)>) | Text(text: string)

  /** org.springframework.http.ResponseEntity. */
  datatype ResponseEntity = ResponseEntity(body: Body, status: int)

  /** The `(FieldError) error` cast failing on an error that is not a field error. */
  datatype ClassCastException = ClassCastException(error: ObjectError)

  /** The field names of the errors, in list order. */
  function Fields(errors: seq<ObjectError>): seq<string>
    requires AllFieldErrors(errors)
  {
    seq(|errors|, i requires 0 <= i < |errors| => errors[i].field)
  }

  /** The map after putting every error's field and message, in list order. */
  function Collected(errors: seq<ObjectError>): seq<(string, string)>
    requires AllFieldErrors(errors)
  {
    if errors == [] then []
    else
      var last := errors[|errors| - 1];
      AfterPut(Collected(errors[..|errors| - 1]), last.field, last.defaultMessage)
  }

  /** The message of the last error on field f, if any error names f. */
  function LastMessage(errors: seq<ObjectError>, f: string): Option<string>
    requires AllFieldErrors(errors)
  {
    if errors == [] then None
    else if errors[|errors| - 1].field == f then Some(errors[|errors| - 1].defaultMessage)
    else LastMessage(errors[..|errors| - 1], f)
  }

  /**
   * handleValidationErrors: put each error's field and message into a fresh
   * LinkedHashMap in list order, then answer with that map and status 400.
   * An error that is not a FieldError makes the cast throw.
   */
  method HandleValidationErrors(errors: seq<ObjectError>) returns (r: Result<ResponseEntity, ClassCastException>)
    ensures r.Failure? <==> !AllFieldErrors(errors)
    ensures r.Failure? ==> exists k :: 0 <= k < |errors| && r.error == ClassCastException(errors[k])
                                      && !errors[k].FieldError? && AllFieldErrors(errors[..k])
    ensures r.Success? ==> r.value == ResponseEntity(FieldMessages(Collected(errors)), BadRequest)
  {
    var fieldMessages := new LinkedHashMap<string, string>();
    var i := 0;
    while i < |errors|
      invariant 0 <= i <= |errors|
      invariant AllFieldErrors(errors[..i])
      invariant fieldMessages.Valid()
      invariant fieldMessages.entries == Collected(errors[..i])
    {
      var error := errors[i];
      if !error.FieldError? {
        assert error in errors;
        return Failure(ClassCastException(error));
      }
      ghost var done := errors[..i];
      assert errors[..i + 1] == done + [error];
      assert (done + [error])[..i] == done;
      fieldMessages.Put(error.field, error.defaultMessage);
      assert fieldMessages.entries == Collected(done + [error]);
      i := i + 1;
    }
    assert errors[..i] == errors;
    r := Success(ResponseEntity(FieldMessages(fieldMessages.entries), BadRequest));
  }

  /** A field is a key of the map exactly when some error names it, and no key repeats. */
  lemma {:induction false} CollectedKeys(errors: seq<ObjectError>)
    requires AllFieldErrors(errors)
    ensures Distinct(Keys(Collected(errors)))
    ensures forall f :: f in Keys(Collected(errors)) <==> f in Fields(errors)
  {
    if errors != [] {
      var init := errors[..|errors| - 1];
      CollectedKeys(init);
      assert Fields(errors) == Fields(init) + [errors[|errors| - 1].field];
    }
  }

  /** Each key of ks first occurs in fs before the keys that follow it in ks. */
  ghost predicate InFirstOccurrenceOrder(ks: seq<string>, fs: seq<string>) {
    forall i, j :: 0 <= i < j < |ks| ==>
      ks[i] in fs && ks[j] in fs && FirstIndex(fs, ks[i]) < FirstIndex(fs, ks[j])
  }

  lemma FirstIndexAppend(fs: seq<string>, f: string, x: string)
    requires x in fs
    ensures FirstIndex(fs + [f], x) == FirstIndex(fs, x)
  {
    var a, b := FirstIndex(fs + [f], x), FirstIndex(fs, x);
    assert (fs + [f])[b] == x;
    assert fs[a] == x;
  }

  lemma FirstIndexNew(fs: seq<string>, f: string)
    requires f !in fs
    ensures FirstIndex(fs + [f], f) == |fs|
  {
  }

  /** Keys appear in the order of each field's first occurrence in the error list. */
  lemma {:induction false} CollectedKeyOrder(errors: seq<ObjectError>)
    requires AllFieldErrors(errors)
    ensures InFirstOccurrenceOrder(Keys(Collected(errors)), Fields(errors))
  {
    if errors != [] {
      var init := errors[..|errors| - 1];
      var f := errors[|errors| - 1].field;
      CollectedKeyOrder(init);
      CollectedKeys(init);
      var ks0, fs0 := Keys(Collected(init)), Fields(init);
      var ks, fs := Keys(Collected(errors)), Fields(errors);
      assert fs == fs0 + [f];
      assert Collected(errors) == AfterPut(Collected(init), f, errors[|errors| - 1].defaultMessage);
      forall i, j | 0 <= i < j < |ks|
        ensures ks[i] in fs && ks[j] in fs && FirstIndex(fs, ks[i]) < FirstIndex(fs, ks[j])
      {
        assert ks[i] in ks0;
        FirstIndexAppend(fs0, f, ks[i]);
        if j < |ks0| {
          assert ks[j] == ks0[j];
          FirstIndexAppend(fs0, f, ks[j]);
        } else {
          assert ks[j] == f && f !in fs0;
          FirstIndexNew(fs0, f);
        }
      }
    }
  }

  /** When a field occurs more than once, the map holds the message of its last occurrence. */
  lemma {:induction false} CollectedLastWriteWins(errors: seq<ObjectError>)
    requires AllFieldErrors(errors)
    ensures forall f :: Get(Collected(errors), f) == LastMessage(errors, f)
  {
    if errors != [] {
      CollectedLastWriteWins(errors[..|errors| - 1]);
    }
  }

  /** When no two errors share a field, each field's message is that of its one error. */
  lemma {:induction false} LastMessageOfDistinct(errors: seq<ObjectError>, f: string)
    requires AllFieldErrors(errors)
    requires forall i, j :: 0 <= i < j < |errors| ==> errors[i].field != errors[j].field
    ensures forall k :: 0 <= k < |errors| && errors[k].field == f ==>
              LastMessage(errors, f) == Some(errors[k].defaultMessage)
    ensures (forall k :: 0 <= k < |errors| ==> errors[k].field != f) ==> LastMessage(errors, f) == None
  {
    if errors != [] {
      LastMessageOfDistinct(errors[..|errors| - 1], f);
    }
  }

  /** The map has one entry per distinct field name; no errors give an empty map. */
  lemma CollectedSize(errors: seq<ObjectError>)
    requires AllFieldErrors(errors)
    ensures |Collected(errors)| == |set f | f in Fields(errors)|
    ensures errors == [] <==> Collected(errors) == []
  {
    var ks := Keys(Collected(errors));
    CollectedKeys(errors);
    DistinctCardinality(ks);
    assert (set f | f in ks) == (set f | f in Fields(errors));
    if errors != [] {
      assert errors[|errors| - 1].field in Fields(errors);
    }
  }

  /**
   * The 400 body for any member: name maps to the @NotBlank message exactly
   * when the name is blank, uniformNumber to the @Min or @Max message exactly
   * when that bound is broken, and no other key appears.
   */
  lemma RejectionBody(m: Member)
    ensures var body := Collected(Validate(m).errors);
            && Get(body, NameField) == (if HasText(m.name) then None else Some(NameRequired))
            && Get(body, UniformNumberField)
               == (if m.uniformNumber.None? then None
                   else if m.uniformNumber.value < UniformNumberMin then Some(UniformNumberTooSmall)
                   else if m.uniformNumber.value > UniformNumberMax then Some(UniformNumberTooLarge)
                   else None)
            && forall f :: f in Keys(body) ==> f == NameField || f == UniformNumberField
  {
    var vs := Violations(m);
    var errors := Validate(m).errors;
    assert forall k :: 0 <= k < |errors| ==> errors[k] == FieldError(vs[k].field, vs[k].message);
    CollectedLastWriteWins(errors);
    CollectedKeys(errors);
    LastMessageOfDistinct(errors, NameField);
    LastMessageOfDistinct(errors, UniformNumberField);
    if !HasText(m.name) {
      var k :| 0 <= k < |vs| && vs[k] == Violation(NameField, NameRequired);
      assert errors[k].field == NameField;
    }
    if m.uniformNumber.Some? && m.uniformNumber.value < UniformNumberMin {
      var k :| 0 <= k < |vs| && vs[k] == Violation(UniformNumberField, UniformNumberTooSmall);
      assert errors[k].field == UniformNumberField;
    }
    if m.uniformNumber.Some? && m.uniformNumber.value > UniformNumberMax {
      var k :| 0 <= k < |vs| && vs[k] == Violation(UniformNumberField, UniformNumberTooLarge);
      assert errors[k].field == UniformNumberField;
    }
    forall f | f in Keys(Collected(errors))
      ensures f == NameField || f == UniformNumberField
    {
      var k :| 0 <= k < |errors| && Fields(errors)[k] == f;
      assert vs[k] in vs;
    }
  }

  /** The blank-name request of the integration test: the body is name ↦ "名前は必須です". */
  lemma BlankNameResponse()
    ensures var errors := Validate(Member(None, Some(""), Some(10), None, None, None)).errors;
            Collected(errors) == [(NameField, NameRequired)]
  {
  }

  /** The number-100 request of the integration test: the body has the key uniformNumber. */
  lemma OutOfRangeResponse()
    ensures var errors := Validate(Member(None, Some("日向翔陽"), Some(100), None, None, None)).errors;
            Keys(Collected(errors)) == [UniformNumberField]
            && Get(Collected(errors), UniformNumberField) == Some(UniformNumberTooLarge)
  {
  }
}
