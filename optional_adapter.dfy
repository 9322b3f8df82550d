/**
 * OptionalTypeAdapter: GSON support for java.util.Optional. An empty (or
 * null) Optional is written as the JSON null token; a present one is written
 * exactly as the adapter of its inner type writes the value. Reading turns a
 * null token into an empty Optional and hands anything else to the inner
 * adapter. JSON streams are modelled as token sequences.
 */
module OptionalAdapter {
  import opened Wrappers

  datatype Token =
    | NullToken
    | BoolToken(b: bool)
    | NumberToken(n: int)
    | StringToken(s: string)
    | NameToken(name: string)
    | BeginArray | EndArray
    | BeginObject | EndObject

  /** What a read yields: the value and the tokens after it, or a malformed input. */
  datatype ReadResult<T> = Read(value: T, rest: seq<Token>) | Malformed

  /** A GSON TypeAdapter: the tokens it writes for a value, and how it reads one. */
  datatype TypeAdapter<!T> = TypeAdapter(write: T -> seq<Token>, read: seq<Token> -> ReadResult<T>)

  /** A java.util.Optional reference: null, empty, or holding a value. */
  datatype JavaOptional<T> = NullRef | Empty | Present(value: T)

  /** write: null or empty becomes one null token; a present value is the inner adapter's output. */
  function Write<T>(inner: TypeAdapter<T>, o: JavaOptional<T>): (out: seq<Token>)
    ensures out == [NullToken] <==> !o.Present? || inner.write(o.value) == [NullToken]
  {
    if o.NullRef? || o.Empty? then [NullToken] else inner.write(o.value)
  }

  /** read: a null token is consumed and gives empty; anything else is read by the inner adapter and wrapped. */
  function ReadOptional<T>(inner: TypeAdapter<T>, input: seq<Token>): (r: ReadResult<JavaOptional<T>>)
    ensures |input| > 0 && input[0] == NullToken ==> r == Read(Empty, input[1..])
    ensures (|input| == 0 || input[0] != NullToken) && inner.read(input).Read? ==>
              r == Read(Present(inner.read(input).value), inner.read(input).rest)
    ensures (|input| == 0 || input[0] != NullToken) && inner.read(input).Malformed? ==> r.Malformed?
    ensures r.Read? ==> !r.value.NullRef?
  {
    if |input| > 0 && input[0] == NullToken then Read(Empty, input[1..])
    else match inner.read(input)
      case Read(v, rest) => Read(Present(v), rest)
      case Malformed => Malformed
  }

  /** The inner adapter reads back `v`, followed by `rest`, from what it writes for `v`, and that does not start with null. */
  ghost predicate RoundTripsAt<T>(inner: TypeAdapter<T>, v: T, rest: seq<Token>)
  {
    var out := inner.write(v);
    |out| > 0 && out[0] != NullToken && inner.read(out + rest) == Read(v, rest)
  }

  /** What reading back a written Optional yields: a null reference comes back empty. */
  function Normalized<T>(o: JavaOptional<T>): JavaOptional<T>
  {
    if o.NullRef? then Empty else o
  }

  /** Writing then reading gives back the Optional (a null one comes back empty) and leaves the following tokens. */
  lemma RoundTrip<T>(inner: TypeAdapter<T>, o: JavaOptional<T>, rest: seq<Token>)
    requires o.Present? ==> RoundTripsAt(inner, o.value, rest)
    ensures ReadOptional(inner, Write(inner, o) + rest) == Read(Normalized(o), rest)
  {
    var out := Write(inner, o);
    if o.Present? {
      assert (out + rest)[0] == out[0];
    } else {
      assert (out + rest)[1..] == rest;
    }
  }

  /** An adapter that writes a present value as a bare null token breaks the round trip: the value reads back empty. */
  lemma PresentNullIsLost<T>(inner: TypeAdapter<T>, v: T, rest: seq<Token>)
    requires inner.write(v) == [NullToken]
    ensures ReadOptional(inner, Write(inner, Present(v)) + rest) == Read(Empty, rest)
  {
    assert ([NullToken] + rest)[1..] == rest;
  }

  /** A string adapter that reads string tokens only (GSON's own also accepts numbers and booleans), for non-null strings. */
  function StringAdapter(): TypeAdapter<string>
  {
    TypeAdapter(
      (s: string) => [StringToken(s)],
      (input: seq<Token>) => if |input| > 0 && input[0].StringToken? then Read(input[0].s, input[1..]) else Malformed)
  }

  /** Optional<String> round-trips through the String adapter. */
  lemma StringOptionalRoundTrip(o: JavaOptional<string>, rest: seq<Token>)
    ensures ReadOptional(StringAdapter(), Write(StringAdapter(), o) + rest) == Read(Normalized(o), rest)
  {
    if o.Present? {
      assert ([StringToken(o.value)] + rest)[1..] == rest;
      assert RoundTripsAt(StringAdapter(), o.value, rest);
    }
    RoundTrip(StringAdapter(), o, rest);
  }

  /** A Java type: a plain class, or a parameterised type with its raw class and type arguments. */
  datatype JavaType = ClassType(name: string) | Parameterized(raw: string, args: seq<JavaType>)

  const OptionalClass: string := "java.util.Optional"
  const ObjectClass: string := "java.lang.Object"

  function RawType(t: JavaType): string
  {
    match t
    case ClassType(name) => name
    case Parameterized(raw, _) => raw
  }

  /** getInnerType: the first type argument of a parameterised type, otherwise Object. */
  function InnerType(t: JavaType): (inner: JavaType)
    ensures t.Parameterized? && |t.args| > 0 ==> inner == t.args[0]
    ensures !(t.Parameterized? && |t.args| > 0) ==> inner == ClassType(ObjectClass)
  {
    if t.Parameterized? && |t.args| > 0 then t.args[0] else ClassType(ObjectClass)
  }

  /**
   * FACTORY.create: no adapter for a type whose raw class is not Optional;
   * for Optional, an adapter built on the inner type's adapter. The result
   * names the inner type the adapter delegates to.
   */
  function Create(t: JavaType): (r: Option<JavaType>)
    ensures r.None? <==> RawType(t) != OptionalClass
    ensures r.Some? ==> r.value == InnerType(t)
  {
    if RawType(t) != OptionalClass then None else Some(InnerType(t))
  }

  /** Optional<String> delegates to String; a raw Optional delegates to Object; String gets no adapter. */
  lemma CreateExamples()
    ensures Create(Parameterized(OptionalClass, [ClassType("java.lang.String")])) == Some(ClassType("java.lang.String"))
    ensures Create(ClassType(OptionalClass)) == Some(ClassType(ObjectClass))
    ensures Create(ClassType("java.lang.String")) == None
  {
  }
}
