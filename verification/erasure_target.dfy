/**
  The erasure-target base class: it binds a target to one erasure method,
  checks every assignment against the target kind's SupportsMethod, and saves
  and restores the binding through the method's GUID.

  The host's globals (the Default sentinel of the method registrar and the
  table of registered methods) are handed in as a Registrar value.
 */
module ErasureTargets {
  import opened Wrappers

  /** A 128-bit System.Guid. */
  newtype Guid = x: int | 0 <= x < 0x1_0000_0000_0000_0000_0000_0000_0000_0000

  /** Guid.Empty, which the stored data uses for the Default sentinel. */
  const EmptyGuid: Guid := 0

  /** An erasure method (IErasureMethod), known by its GUID and its name. */
  datatype ErasureMethod = ErasureMethod(guid: Guid, name: string)

  /** The Default sentinel of the method registrar and the host's methods by GUID. */
  datatype Registrar = Registrar(default: ErasureMethod, methods: map<Guid, ErasureMethod>)

  /** The exceptions a target raises. */
  datatype TargetError =
    | ArgumentException          // the setter refuses a method the target does not support
    | InvalidOperationException  // the effective method of a target bound to the Default sentinel
    | SerializationException     // the stored data holds no "Method" value
    | MethodNotRegistered        // the stored GUID is not in the host's table

  /** The stored form of a target: named GUID values (SerializationInfo). */
  type SerializationInfo = map<string, Guid>

  /** The name under which the bound method's GUID is stored. */
  const MethodKey: string := "Method"

  /** The setter's check: a method the target kind does not support is refused with an ArgumentException. */
  function CheckMethod(supportsMethod: ErasureMethod -> bool, value: ErasureMethod): (outcome: Outcome<TargetError>)
    ensures outcome.Pass? <==> supportsMethod(value)
    ensures outcome.Fail? ==> outcome.error == ArgumentException
  {
    if supportsMethod(value) then Pass else Fail(ArgumentException)
  }

  /**
    The method a stored target names: Guid.Empty stands for the Default
    sentinel, any other GUID is looked up in the host's table, and a missing
    value or an unknown GUID is an error that propagates.
   */
  function ResolveStoredMethod(info: SerializationInfo, registrar: Registrar): (r: Result<ErasureMethod, TargetError>)
    ensures MethodKey !in info ==> r == Failure(SerializationException)
    ensures MethodKey in info && info[MethodKey] == EmptyGuid ==> r == Success(registrar.default)
    ensures MethodKey in info && info[MethodKey] != EmptyGuid ==>
      (r.Success? <==> info[MethodKey] in registrar.methods) &&
      (r.Success? ==> r.value == registrar.methods[info[MethodKey]]) &&
      (r.Failure? ==> r.error == MethodNotRegistered)
  {
    if MethodKey !in info then Failure(SerializationException)
    else if info[MethodKey] == EmptyGuid then Success(registrar.default)
    else if info[MethodKey] in registrar.methods then Success(registrar.methods[info[MethodKey]])
    else Failure(MethodNotRegistered)
  }

  /** The Default sentinel carries Guid.Empty and every registered method is filed under its own, non-empty, GUID. */
  ghost predicate Consistent(registrar: Registrar) {
    registrar.default.guid == EmptyGuid &&
    forall g | g in registrar.methods :: g != EmptyGuid && registrar.methods[g].guid == g
  }

  /** A method the host can give back from its GUID: the Default sentinel or a registered method. */
  ghost predicate Restorable(registrar: Registrar, m: ErasureMethod) {
    m == registrar.default || m in registrar.methods.Values
  }

  class ErasureTarget {
    /** SupportsMethod of the concrete target kind. */
    const supportsMethod: ErasureMethod -> bool

    /** The backing field of the Method property. */
    var boundMethod: ErasureMethod

    /** The bound method passed the setter's check when it was stored. */
    ghost predicate Valid()
      reads this
    {
      supportsMethod(boundMethod)
    }

    /** The object once the setter has accepted `m` for it. */
    constructor Bind(supportsMethod: ErasureMethod -> bool, m: ErasureMethod)
      requires CheckMethod(supportsMethod, m).Pass?
      ensures Valid()
      ensures this.supportsMethod == supportsMethod && boundMethod == m
    {
      this.supportsMethod := supportsMethod;
      boundMethod := m;
    }

    /** The default constructor: binds the Default sentinel through the setter. */
    static method Create(supportsMethod: ErasureMethod -> bool, registrar: Registrar)
      returns (r: Result<ErasureTarget, TargetError>)
      ensures r.Success? <==> supportsMethod(registrar.default)
      ensures r.Failure? ==> r.error == ArgumentException
      ensures r.Success? ==>
        fresh(r.value) && r.value.Valid() &&
        r.value.supportsMethod == supportsMethod && r.value.Method() == registrar.default
    {
      var check := CheckMethod(supportsMethod, registrar.default);
      if check.Fail? {
        return Failure(check.error);
      }
      var target := new ErasureTarget.Bind(supportsMethod, registrar.default);
      return Success(target);
    }

    /**
      The serialisation constructor: reads the stored GUID, resolves it and
      binds the result through the setter.
     */
    static method Deserialize(supportsMethod: ErasureMethod -> bool, info: SerializationInfo, registrar: Registrar)
      returns (r: Result<ErasureTarget, TargetError>)
      ensures ResolveStoredMethod(info, registrar).Failure? ==>
        r == Failure(ResolveStoredMethod(info, registrar).error)
      ensures ResolveStoredMethod(info, registrar).Success? ==>
        var m := ResolveStoredMethod(info, registrar).value;
        (r.Success? <==> supportsMethod(m)) &&
        (r.Failure? ==> r.error == ArgumentException) &&
        (r.Success? ==>
          fresh(r.value) && r.value.Valid() &&
          r.value.supportsMethod == supportsMethod && r.value.Method() == m)
    {
      var resolved := ResolveStoredMethod(info, registrar);
      if resolved.Failure? {
        return Failure(resolved.error);
      }
      var check := CheckMethod(supportsMethod, resolved.value);
      if check.Fail? {
        return Failure(check.error);
      }
      var target := new ErasureTarget.Bind(supportsMethod, resolved.value);
      return Success(target);
    }

    /** The getter of Method: the bound method, which the target kind supports. */
    function Method(): (m: ErasureMethod)
      reads this
      requires Valid()
      ensures supportsMethod(m)
    {
      boundMethod
    }

    /** The setter of Method: stores `value` if the target kind supports it, else raises and keeps the old binding. */
    method SetMethod(value: ErasureMethod) returns (outcome: Outcome<TargetError>)
      requires Valid()
      modifies this
      ensures Valid()
      ensures outcome == CheckMethod(supportsMethod, value)
      ensures outcome.Pass? ==> Method() == value
      ensures outcome.Fail? ==> boundMethod == old(boundMethod)
    {
      outcome := CheckMethod(supportsMethod, value);
      if outcome.Fail? {
        return;
      }
      boundMethod := value;
    }

    /** The effective method: the bound method, never the Default sentinel, which raises instead. */
    function EffectiveMethod(registrar: Registrar): (r: Result<ErasureMethod, TargetError>)
      reads this
      ensures r.Success? <==> boundMethod != registrar.default
      ensures r.Success? ==> r.value == boundMethod && r.value != registrar.default
      ensures r.Failure? ==> r.error == InvalidOperationException
    {
      if boundMethod != registrar.default then Success(boundMethod)
      else Failure(InvalidOperationException)
    }

    /** GetObjectData: stores the bound method's GUID under "Method". */
    function GetObjectData(): (info: SerializationInfo)
      reads this
      ensures info.Keys == {MethodKey}
      ensures info[MethodKey] == boundMethod.guid
    {
      map[MethodKey := boundMethod.guid]
    }
  }

  /** Saving a target and reading it back resolves to the method it was bound to. */
  lemma SerializationRoundTrip(target: ErasureTarget, registrar: Registrar)
    requires Consistent(registrar) && Restorable(registrar, target.boundMethod)
    ensures ResolveStoredMethod(target.GetObjectData(), registrar) == Success(target.boundMethod)
  {
    var m := target.boundMethod;
    if m != registrar.default {
      var g :| g in registrar.methods && registrar.methods[g] == m;
      assert m.guid == g;
    }
  }
}
