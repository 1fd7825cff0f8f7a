/**
 * The validation exception: validation failures grouped by property name into
 * the error map that the response reports.
 */
module ValidationExceptions {
  import opened Sequences
  import opened Errors

  /** One failed rule: the property it was checked on and its message. */
  datatype ValidationFailure = ValidationFailure(propertyName: string, errorMessage: string)

  /** The property names of the failures, in order. */
  function PropertyNames(failures: seq<ValidationFailure>): (names: seq<string>)
    ensures |names| == |failures| && forall i :: 0 <= i < |failures| ==> names[i] == failures[i].propertyName
  {
    seq(|failures|, i requires 0 <= i < |failures| => failures[i].propertyName)
  }

  /** The keys of an error map, in order. */
  function Keys(groups: ErrorGroups): (keys: seq<string>)
    ensures |keys| == |groups| && forall j :: 0 <= j < |groups| ==> keys[j] == groups[j].0
  {
    seq(|groups|, j requires 0 <= j < |groups| => groups[j].0)
  }

  /** The messages of the failures on `propertyName`, in input order. */
  function MessagesFor(failures: seq<ValidationFailure>, propertyName: string): seq<string> {
    if |failures| == 0 then []
    else
      var last := failures[|failures| - 1];
      MessagesFor(failures[..|failures| - 1], propertyName)
      + (if last.propertyName == propertyName then [last.errorMessage] else [])
  }

  /** The keys of a non-empty map, and of each of its prefixes, start with the first key. */
  lemma KeysByHead(groups: ErrorGroups)
    requires |groups| > 0
    ensures Keys(groups) == [groups[0].0] + Keys(groups[1..])
    ensures forall j :: 1 <= j < |groups| ==> Keys(groups[..j]) == [groups[0].0] + Keys(groups[1..][..j - 1])
  {
    forall j | 1 <= j < |groups| ensures Keys(groups[..j]) == [groups[0].0] + Keys(groups[1..][..j - 1]) {
      assert groups[..j][1..] == groups[1..][..j - 1];
    }
  }

  /** Files one message under its property: appended to that property's group, or a new group at the end. */
  function AddMessage(groups: ErrorGroups, propertyName: string, message: string): (r: ErrorGroups)
    ensures propertyName in Keys(groups) ==> Keys(r) == Keys(groups)
    ensures propertyName !in Keys(groups) ==> Keys(r) == Keys(groups) + [propertyName]
    ensures forall j :: 0 <= j < |groups| ==>
      r[j].1 == groups[j].1 + (if groups[j].0 == propertyName && propertyName !in Keys(groups[..j]) then [message] else [])
    ensures propertyName !in Keys(groups) ==> r[|groups|].1 == [message]
  {
    if |groups| == 0 then [(propertyName, [message])]
    else if groups[0].0 == propertyName then [(propertyName, groups[0].1 + [message])] + groups[1..]
    else
      var rest := AddMessage(groups[1..], propertyName, message);
      KeysByHead(groups);
      [groups[0]] + rest
  }

  /** `failures.GroupBy(f => f.PropertyName, f => f.ErrorMessage).ToDictionary(g => g.Key, g => g.ToArray())`. */
  function GroupByProperty(failures: seq<ValidationFailure>): (r: ErrorGroups)
    ensures |r| <= |failures|
    ensures forall j :: 0 <= j < |r| ==> |r[j].1| > 0
  {
    if |failures| == 0 then []
    else
      var last := failures[|failures| - 1];
      AddMessage(GroupByProperty(failures[..|failures| - 1]), last.propertyName, last.errorMessage)
  }

  /** The groups are the distinct property names, in order of first appearance. */
  lemma {:induction false} GroupKeysAreDistinctNames(failures: seq<ValidationFailure>)
    ensures Keys(GroupByProperty(failures)) == Distinct(PropertyNames(failures))
  {
    if |failures| > 0 {
      var n := |failures| - 1;
      GroupKeysAreDistinctNames(failures[..n]);
      assert PropertyNames(failures)[..n] == PropertyNames(failures[..n]);
    }
  }

  /** Each group holds exactly its property's messages, in input order. */
  lemma {:induction false} GroupMessagesInOrder(failures: seq<ValidationFailure>)
    ensures forall j :: 0 <= j < |GroupByProperty(failures)| ==>
      GroupByProperty(failures)[j].1 == MessagesFor(failures, GroupByProperty(failures)[j].0)
  {
    if |failures| > 0 {
      var n := |failures| - 1;
      var prefix := failures[..n];
      var last := failures[n];
      var groups := GroupByProperty(prefix);
      var r := GroupByProperty(failures);
      assert r == AddMessage(groups, last.propertyName, last.errorMessage);
      GroupMessagesInOrder(prefix);
      GroupKeysAreDistinctNames(prefix);
      NoDuplicateKeys(groups, Distinct(PropertyNames(prefix)));
      forall j | 0 <= j < |r| ensures r[j].1 == MessagesFor(failures, r[j].0) {
        var key := r[j].0;
        var added := if last.propertyName == key then [last.errorMessage] else [];
        assert MessagesFor(failures, key) == MessagesFor(prefix, key) + added;
        assert Keys(r)[j] == key;
        if j < |groups| {
          assert Keys(groups)[j] == groups[j].0 == key;
          assert groups[j].1 == MessagesFor(prefix, key);
          assert key !in Keys(groups[..j]);
          assert r[j].1 == groups[j].1 + added;
        } else {
          assert |Keys(r)| > |Keys(groups)|;
          assert last.propertyName !in Keys(groups);
          assert |r| == |groups| + 1 && j == |groups|;
          assert key == last.propertyName;
          assert r[j].1 == [last.errorMessage];
          MessagesForAbsent(prefix, key);
          assert MessagesFor(failures, key) == [] + [last.errorMessage];
        }
      }
    }
  }

  /** Distinct keys: a key occurs in no earlier group than its own. */
  lemma NoDuplicateKeys(groups: ErrorGroups, keys: seq<string>)
    requires Keys(groups) == keys && NoDuplicates(keys)
    ensures forall j :: 0 <= j < |groups| ==> groups[j].0 !in Keys(groups[..j])
  {
  }

  /** A property no failure names has no messages. */
  lemma {:induction false} MessagesForAbsent(failures: seq<ValidationFailure>, propertyName: string)
    requires propertyName !in Distinct(PropertyNames(failures))
    ensures MessagesFor(failures, propertyName) == []
  {
    if |failures| > 0 {
      var n := |failures| - 1;
      assert PropertyNames(failures)[..n] == PropertyNames(failures[..n]);
      assert PropertyNames(failures)[n] == failures[n].propertyName;
      MessagesForAbsent(failures[..n], propertyName);
    }
  }

  /** `new ValidationException()`: the fixed message and an empty error map. */
  function EmptyValidationException(): (e: Error)
    ensures e.Validation? && e.errors == [] && e.Message() == ValidationMessage
  {
    Validation([])
  }

  /** `new ValidationException(failures)`: the fixed message and the failures grouped by property. */
  function ValidationExceptionFrom(failures: seq<ValidationFailure>): (e: Error)
    ensures e.Validation? && e.Message() == ValidationMessage
    ensures Keys(e.errors) == Distinct(PropertyNames(failures))
    ensures forall j :: 0 <= j < |e.errors| ==> e.errors[j].1 == MessagesFor(failures, e.errors[j].0)
  {
    GroupKeysAreDistinctNames(failures);
    GroupMessagesInOrder(failures);
    Validation(GroupByProperty(failures))
  }

  /** `new ValidationException(propertyName, errorMessage)`: the fixed message and one key with one message. */
  function ValidationExceptionFor(propertyName: string, errorMessage: string): (e: Error)
    ensures e.Validation? && e.Message() == ValidationMessage
    ensures Keys(e.errors) == [propertyName] && e.errors[0].1 == [errorMessage]
  {
    Validation([(propertyName, [errorMessage])])
  }
}
