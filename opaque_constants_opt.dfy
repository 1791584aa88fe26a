/** The option the constants hook returns: skip, a flag, a lower limit or a set of values. */
module OpaqueConstantsOpts {
  /** The four alternatives of the `OpaqueConstantsOpt` variant. */
  datatype OpaqueConstantsOpt =
    | Skip
    | Bool(flag: bool)
    /** Protect the constants above `value` (a `uint64_t`). */
    | LowerLimit(value: nat)
    /** Protect the constants listed, kept as a set of `uint64_t`. */
    | Set(values: set<nat>)

  predicate IsSkip(o: OpaqueConstantsOpt) { o.Skip? }

  /** `OpaqueConstantsSet(std::vector<uint64_t>)`: the listed values, duplicates collapsed. */
  function SetOf(vals: seq<nat>): (o: OpaqueConstantsOpt)
    ensures o.Set?
    ensures forall v :: v in o.values <==> v in vals
    ensures |o.values| <= |vals|
  {
    if |vals| == 0 then Set({})
    else
      var rest := SetOf(vals[1..]);
      assert forall v :: v in vals <==> v == vals[0] || v in vals[1..];
      Set({vals[0]} + rest.values)
  }

  /** `contains`: membership. */
  predicate Contains(o: OpaqueConstantsOpt, v: nat)
    requires o.Set?
  {
    v in o.values
  }

  /** `empty()`. */
  predicate IsEmpty(o: OpaqueConstantsOpt)
    requires o.Set?
  {
    o.values == {}
  }

  /** The `operator bool` of the three alternatives that have one. */
  predicate IsTruthy(o: OpaqueConstantsOpt)
    requires !o.Skip?
  {
    match o
    case Bool(b) => b
    case LowerLimit(v) => v > 0
    case Set(vs) => vs != {}
  }

  /** A set option is truthy exactly when it holds a value, so `empty()` and truthiness agree. */
  lemma SetTruthiness(vals: seq<nat>)
    ensures IsTruthy(SetOf(vals)) <==> |vals| > 0
    ensures IsTruthy(SetOf(vals)) <==> !IsEmpty(SetOf(vals))
  {
    if |vals| > 0 {
      assert vals[0] in SetOf(vals).values;
    }
  }
}
