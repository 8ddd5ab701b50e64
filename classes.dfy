/** The `DataSet` and `ObjectClass` enums of index.rs, their lowercase names
    (`Display`) and their parsers (`FromStr`), and the sample-count constants. */
module Classes {
  import opened Wrappers

  datatype DataSet = Train | Test | Valid

  datatype ObjectClass =
    Airplane | Automobile | Bird | Cat | Deer | Dog | Frog | Horse | Ship | Truck

  /** The declaration order, which is the order `ObjectClass::iter()` visits. */
  const AllClasses: seq<ObjectClass> :=
    [Airplane, Automobile, Bird, Cat, Deer, Dog, Frog, Horse, Ship, Truck]

  const SamplesPerClass: nat := 9000
  const SamplesPerDataset: nat := SamplesPerClass * |AllClasses|

  /** `ObjectClass::COUNT`. */
  lemma ClassCount()
    ensures |AllClasses| == 10 && SamplesPerDataset == 90000
  {
  }

  /** Position of a class in the declaration order. */
  function ClassIndex(c: ObjectClass): (r: nat)
    ensures r < |AllClasses| && AllClasses[r] == c
  {
    match c
    case Airplane => 0 case Automobile => 1 case Bird => 2 case Cat => 3 case Deer => 4
    case Dog => 5 case Frog => 6 case Horse => 7 case Ship => 8 case Truck => 9
  }

  /** The declaration order lists every class exactly once. */
  lemma AllClassesDistinct()
    ensures forall i, j :: 0 <= i < j < |AllClasses| ==> AllClasses[i] != AllClasses[j]
    ensures forall i :: 0 <= i < |AllClasses| ==> ClassIndex(AllClasses[i]) == i
  {
  }

  /** The lowercase `Display` name (`strum(serialize_all = "lowercase")`): a
      non-empty run of lowercase ASCII letters, so it holds no path separator,
      dash, colon or whitespace. */
  function ClassName(c: ObjectClass): (r: string)
    ensures r != [] && forall k :: 0 <= k < |r| ==> 'a' <= r[k] <= 'z'
  {
    match c
    case Airplane => "airplane" case Automobile => "automobile" case Bird => "bird"
    case Cat => "cat" case Deer => "deer" case Dog => "dog" case Frog => "frog"
    case Horse => "horse" case Ship => "ship" case Truck => "truck"
  }

  /** `ObjectClass::from_str`: exact, case-sensitive match of one of the ten names. */
  function ParseObjectClass(s: string): (r: Option<ObjectClass>)
    ensures r.Some? ==> ClassName(r.value) == s
    ensures r.None? <==> forall c: ObjectClass :: ClassName(c) != s
  {
    if s == "airplane" then Some(Airplane)
    else if s == "automobile" then Some(Automobile)
    else if s == "bird" then Some(Bird)
    else if s == "cat" then Some(Cat)
    else if s == "deer" then Some(Deer)
    else if s == "dog" then Some(Dog)
    else if s == "frog" then Some(Frog)
    else if s == "horse" then Some(Horse)
    else if s == "ship" then Some(Ship)
    else if s == "truck" then Some(Truck)
    else None
  }

  /** Parsing a class name gives that class back; the empty string and any other
      text is refused. */
  lemma ClassNameRoundTrip(c: ObjectClass)
    ensures ParseObjectClass(ClassName(c)) == Some(c)
    ensures ParseObjectClass("") == None && ParseObjectClass("bad") == None
  {
  }

  /** The lowercase `Display` name of a split. */
  function DataSetName(d: DataSet): (r: string)
    ensures r != [] && forall k :: 0 <= k < |r| ==> 'a' <= r[k] <= 'z'
  {
    match d
    case Train => "train" case Test => "test" case Valid => "valid"
  }

  /** `DataSet::from_str`. */
  function ParseDataSet(s: string): (r: Option<DataSet>)
    ensures r.Some? ==> DataSetName(r.value) == s
    ensures r.None? <==> forall d: DataSet :: DataSetName(d) != s
  {
    if s == "train" then Some(Train)
    else if s == "test" then Some(Test)
    else if s == "valid" then Some(Valid)
    else None
  }

  lemma DataSetNameRoundTrip(d: DataSet)
    ensures ParseDataSet(DataSetName(d)) == Some(d)
    ensures ParseDataSet("") == None && ParseDataSet("bad") == None
  {
  }
}
