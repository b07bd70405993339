/**
  `manage_gcp_custom_metrics.py`: lists the custom metric descriptors of a
  Cloud Monitoring project, one formatted line each, and deletes one by
  name after a confirmation.

  The descriptors the service returns are a sequence of records; `search`
  stands for `re.search`, and the answer to the confirmation prompt is a
  parameter. Lines are what `list` prints and are returned.
*/
module GcpCustomMetrics {
  import opened Strings
  import opened PySeq
  import opened Wrappers

  const CustomPrefix := "custom.googleapis.com/"

  datatype MetricKind = MetricKindUnspecified | Gauge | Delta | Cumulative
  datatype ValueType = ValueTypeUnspecified | Bool | Int64 | Double | String | Distribution | Money

  /** A metric descriptor: resource name, metric type, and the fields `list` shows. */
  datatype Descriptor = Descriptor(
    name: string, metricType: string, description: string, unit: string,
    labelKeys: seq<string>, kind: MetricKind, valueType: ValueType)

  /** `MetricKind.Name(kind)`. */
  function KindName(k: MetricKind): string {
    match k
    case MetricKindUnspecified => "METRIC_KIND_UNSPECIFIED"
    case Gauge => "GAUGE"
    case Delta => "DELTA"
    case Cumulative => "CUMULATIVE"
  }

  /** `ValueType.Name(value_type)`. */
  function ValueTypeName(v: ValueType): string {
    match v
    case ValueTypeUnspecified => "VALUE_TYPE_UNSPECIFIED"
    case Bool => "BOOL"
    case Int64 => "INT64"
    case Double => "DOUBLE"
    case String => "STRING"
    case Distribution => "DISTRIBUTION"
    case Money => "MONEY"
  }

  // ---------------------------------------------------------------- list

  /** `re.search(pattern, s)`: whether the pattern is found anywhere in `s`. */
  type Searcher = (string, string) -> bool

  /** The listed name: the metric type without the custom prefix. */
  function Stripped(metricType: string): string
    requires StartsWith(metricType, CustomPrefix)
  {
    metricType[|CustomPrefix|..]
  }

  /**
    Whether `list` shows a descriptor: its type has the custom prefix and,
    when the pattern is not empty, the pattern is found in the listed name.
  */
  function IsShown(pattern: string, search: Searcher): Descriptor -> bool {
    (d: Descriptor) =>
      StartsWith(d.metricType, CustomPrefix) && (pattern == "" || search(pattern, Stripped(d.metricType)))
  }

  /**
    The listed name and the prefix give the metric type back, and a
    non-empty pattern is found in every listed name; an empty pattern shows
    every custom metric.
  */
  lemma ShownSpec(d: Descriptor, pattern: string, search: Searcher)
    ensures IsShown(pattern, search)(d) ==> CustomPrefix + Stripped(d.metricType) == d.metricType
    ensures IsShown(pattern, search)(d) && pattern != "" ==> search(pattern, Stripped(d.metricType))
    ensures pattern == "" ==> (IsShown(pattern, search)(d) <==> StartsWith(d.metricType, CustomPrefix))
  {
    assert IsShown(pattern, search)(d)
           == (StartsWith(d.metricType, CustomPrefix) && (pattern == "" || search(pattern, Stripped(d.metricType))));
    if IsShown(pattern, search)(d) {
      assert d.metricType == d.metricType[..|CustomPrefix|] + d.metricType[|CustomPrefix|..];
    }
  }

  /** The `desc` dictionary of one descriptor, in insertion order. */
  function Desc(d: Descriptor, name: string): seq<(string, string)> {
    [("name", name), ("description", d.description), ("unit", d.unit), ("labels", Join(",", d.labelKeys)),
     ("kind", KindName(d.kind)), ("type", ValueTypeName(d.valueType))]
  }

  const Escape: char := 27 as char

  /** `click.style(text, fg=...)`: the ANSI colour code, the text, then the reset code. */
  function Style(text: string, colour: nat): string {
    [Escape] + "[" + NatToString(colour) + "m" + text + [Escape] + "[0m"
  }

  const Blue: nat := 34
  const Green: nat := 32

  /** One `key=value ` entry, the key in blue and the value in green. */
  function Entry(kv: (string, string)): string {
    Style(kv.0, Blue) + "=" + Style(kv.1, Green) + " "
  }

  function Entries(kvs: seq<(string, string)>): (r: string)
    decreases |kvs|
  {
    if kvs == [] then [] else Entries(kvs[..|kvs| - 1]) + Entry(kvs[|kvs| - 1])
  }

  lemma EntriesSnoc(kvs: seq<(string, string)>, kv: (string, string))
    ensures Entries(kvs + [kv]) == Entries(kvs) + Entry(kv)
  {
    assert (kvs + [kv])[..|kvs|] == kvs;
  }

  predicate NotName(kv: (string, string)) { kv.0 != "name" }

  /**
    Builds `metric_str`: the name and a tab, then `key=value ` for each
    entry of `desc` except "name", in order.
  */
  method MetricLine(name: string, desc: seq<(string, string)>) returns (s: string)
    ensures s == name + "\t" + Entries(Filter(desc, NotName))
  {
    s := name + "\t";
    for i := 0 to |desc|
      invariant s == name + "\t" + Entries(Filter(desc[..i], NotName))
    {
      TakeOneMore(desc, i);
      FilterSnoc(desc[..i], desc[i], NotName);
      if desc[i].0 == "name" {
        assert Filter(desc[..i + 1], NotName) == Filter(desc[..i], NotName);
        continue;
      }
      assert Filter(desc[..i + 1], NotName) == Filter(desc[..i], NotName) + [desc[i]];
      EntriesSnoc(Filter(desc[..i], NotName), desc[i]);
      AppendAssoc(name + "\t", Entries(Filter(desc[..i], NotName)), Entry(desc[i]));
      s := s + Entry(desc[i]);
    }
    assert desc[..|desc|] == desc;
  }

  /** The line `list` prints for a shown descriptor. */
  function DescriptorLine(d: Descriptor): string
    requires StartsWith(d.metricType, CustomPrefix)
  {
    var name := Stripped(d.metricType);
    name + "\t" + Entries(Filter(Desc(d, name), NotName))
  }

  /** Every key of `desc` but the first is not "name". */
  lemma DescEntries(d: Descriptor, name: string)
    ensures Filter(Desc(d, name), NotName) == Desc(d, name)[1..]
  {
    FilterShownKeys(name, d.description, d.unit, Join(",", d.labelKeys), KindName(d.kind), ValueTypeName(d.valueType));
  }

  lemma FilterShownKeys(n: string, a: string, b: string, c: string, e: string, f: string)
    ensures var rest := [("description", a), ("unit", b), ("labels", c), ("kind", e), ("type", f)];
            Filter([("name", n)] + rest, NotName) == rest
  {
    var rest := [("description", a), ("unit", b), ("labels", c), ("kind", e), ("type", f)];
    ShownKeys();
    assert ([("name", n)] + rest)[1..] == rest;
    FilterAll(rest, NotName);
  }

  lemma ShownKeys()
    ensures "description" != "name" && "unit" != "name" && "labels" != "name" && "kind" != "name" && "type" != "name"
  {
    assert "unit"[0] != "name"[0] && "kind"[0] != "name"[0] && "type"[0] != "name"[0];
  }

  lemma FiveEntries(a: (string, string), b: (string, string), c: (string, string), d: (string, string), e: (string, string))
    ensures Entries([a, b, c, d, e]) == Entry(a) + Entry(b) + Entry(c) + Entry(d) + Entry(e)
  {
    assert [a][..0] == [];
    assert Entries([a]) == Entry(a);
    assert [a, b][..1] == [a];
    assert Entries([a, b]) == Entry(a) + Entry(b);
    assert [a, b, c][..2] == [a, b];
    assert Entries([a, b, c]) == Entry(a) + Entry(b) + Entry(c);
    assert [a, b, c, d][..3] == [a, b, c];
    assert Entries([a, b, c, d]) == Entry(a) + Entry(b) + Entry(c) + Entry(d);
    assert [a, b, c, d, e][..4] == [a, b, c, d];
  }

  /**
    A listed line is the name, a tab, and the entries for description,
    unit, labels (the label keys joined with ","), kind and type, in that
    order.
  */
  lemma DescriptorLineLayout(d: Descriptor)
    requires StartsWith(d.metricType, CustomPrefix)
    ensures DescriptorLine(d)
            == Stripped(d.metricType) + "\t"
               + (Entry(("description", d.description)) + Entry(("unit", d.unit))
                  + Entry(("labels", Join(",", d.labelKeys))) + Entry(("kind", KindName(d.kind)))
                  + Entry(("type", ValueTypeName(d.valueType))))
  {
    var name := Stripped(d.metricType);
    DescEntries(d, name);
    var rest := Desc(d, name)[1..];
    assert rest == [("description", d.description), ("unit", d.unit), ("labels", Join(",", d.labelKeys)),
                    ("kind", KindName(d.kind)), ("type", ValueTypeName(d.valueType))];
    FiveEntries(rest[0], rest[1], rest[2], rest[3], rest[4]);
  }

  lemma {:induction false} FilterAll<T>(s: seq<T>, p: T -> bool)
    requires forall i :: 0 <= i < |s| ==> p(s[i])
    ensures Filter(s, p) == s
    decreases |s|
  {
    if s != [] {
      assert forall i :: 0 <= i < |s[1..]| ==> s[1..][i] == s[i + 1];
      FilterAll(s[1..], p);
    }
  }

  /**
    The body of the `list` loop for one descriptor: passes over it (the two
    `continue`s) unless `IsShown` keeps it, and otherwise builds its line.
  */
  method MetricEntry(metric: Descriptor, pattern: string, search: Searcher) returns (line: Option<string>)
    ensures line.Some? <==> IsShown(pattern, search)(metric)
    ensures line.Some? ==> StartsWith(metric.metricType, CustomPrefix) && line.value == DescriptorLine(metric)
  {
    if !StartsWith(metric.metricType, CustomPrefix) {
      return None;
    }
    var metricType := metric.metricType[|CustomPrefix|..];
    assert metricType == Stripped(metric.metricType);
    if pattern != "" && !search(pattern, metricType) {
      return None;
    }
    var s := MetricLine(metricType, Desc(metric, metricType));
    line := Some(s);
  }

  /**
    `list`: walks the descriptors in the service's order and prints the
    line of each one `IsShown` keeps.
  */
  method ListMetrics(metrics: seq<Descriptor>, pattern: string, search: Searcher) returns (lines: seq<string>)
    ensures var shown := Filter(metrics, IsShown(pattern, search));
            |lines| == |shown| && forall k :: 0 <= k < |shown| ==> lines[k] == DescriptorLine(shown[k])
  {
    var shownP := IsShown(pattern, search);
    lines := [];
    for i := 0 to |metrics|
      invariant var shown := Filter(metrics[..i], shownP);
                |lines| == |shown| && forall k :: 0 <= k < |shown| ==> lines[k] == DescriptorLine(shown[k])
    {
      TakeOneMore(metrics, i);
      FilterSnoc(metrics[..i], metrics[i], shownP);
      var line := MetricEntry(metrics[i], pattern, search);
      if line.Some? {
        lines := lines + [line.value];
      }
    }
    assert metrics[..|metrics|] == metrics;
  }

  // ---------------------------------------------------------------- delete

  /** The Cloud Monitoring service's descriptors for the project. */
  class MetricService {
    var descriptors: seq<Descriptor>

    constructor (ds: seq<Descriptor>)
      ensures descriptors == ds
    {
      descriptors := ds;
    }

    /** `list_metric_descriptors` with the filter `metric.type = "<t>"`. */
    method ListOfType(t: string) returns (ds: seq<Descriptor>)
      ensures ds == Filter(descriptors, OfType(t))
    {
      ds := Filter(descriptors, OfType(t));
    }

    /** `delete_metric_descriptor(name=...)`. */
    method DeleteDescriptor(name: string)
      modifies this
      ensures descriptors == Filter(old(descriptors), NotNamed(name))
    {
      descriptors := Filter(descriptors, NotNamed(name));
    }
  }

  function OfType(t: string): Descriptor -> bool {
    (d: Descriptor) => d.metricType == t
  }

  function NotNamed(name: string): Descriptor -> bool {
    (d: Descriptor) => d.name != name
  }

  datatype DeleteOutcome =
    | NotFound(message: string)
    | Declined(prompt: string)
    | Deleted(prompt: string, message: string)

  /**
    `delete`: looks up the descriptor of the custom metric `metricName`; if
    there is none it reports so and deletes nothing, otherwise it asks for
    confirmation and deletes the first such descriptor when `confirmed`.
  */
  method Delete(service: MetricService, metricName: string, confirmed: bool) returns (o: DeleteOutcome)
    modifies service
    ensures var found := Filter(old(service.descriptors), OfType(CustomPrefix + metricName));
            && (o.NotFound? <==> found == [])
            && (o.NotFound? ==> o.message == "Metric " + metricName + " not found.")
            && (o.NotFound? || o.Declined? ==> service.descriptors == old(service.descriptors))
            && (o.Deleted? <==> found != [] && confirmed)
            && (!o.NotFound? ==> o.prompt == "Do you want to delete \"" + CustomPrefix + metricName + "\" ?")
            && (o.Deleted? ==> o.message == "Deleted metric " + metricName + "."
                               && service.descriptors == Filter(old(service.descriptors), NotNamed(found[0].name)))
  {
    var matching := service.ListOfType(CustomPrefix + metricName);
    if matching == [] {
      return NotFound("Metric " + metricName + " not found.");
    }
    var descriptor := matching[0];
    var prompt := "Do you want to delete \"" + descriptor.metricType + "\" ?";
    if confirmed {
      service.DeleteDescriptor(descriptor.name);
      o := Deleted(prompt, "Deleted metric " + metricName + ".");
    } else {
      o := Declined(prompt);
    }
  }

  /**
    A metric `list` shows under a name is found by `delete` under that
    name, the descriptor `delete` then removes is one of the listed
    metric's type, and deleting it keeps every descriptor of another
    resource name and none of its own.
  */
  lemma ListedIsFound(metrics: seq<Descriptor>, d: Descriptor, pattern: string, search: Searcher)
    requires d in metrics && IsShown(pattern, search)(d)
    ensures var found := Filter(metrics, OfType(CustomPrefix + Stripped(d.metricType)));
            && found != []
            && found[0] in metrics && found[0].metricType == d.metricType
            && var left := Filter(metrics, NotNamed(found[0].name));
               forall e :: e in metrics ==> (e in left <==> e.name != found[0].name)
  {
    ShownSpec(d, pattern, search);
    var k :| 0 <= k < |metrics| && metrics[k] == d;
    assert OfType(CustomPrefix + Stripped(d.metricType))(metrics[k]);
    var found := Filter(metrics, OfType(CustomPrefix + Stripped(d.metricType)));
    assert OfType(CustomPrefix + Stripped(d.metricType))(found[0]);
    var left := Filter(metrics, NotNamed(found[0].name));
    forall e | e in metrics ensures e in left <==> e.name != found[0].name {
      if e in left {
        var j :| 0 <= j < |left| && left[j] == e;
        assert NotNamed(found[0].name)(left[j]);
      } else {
        var j :| 0 <= j < |metrics| && metrics[j] == e;
        assert !NotNamed(found[0].name)(metrics[j]);
      }
    }
  }
}
