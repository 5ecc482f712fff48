/** The scanner's result shapes, as far as the pipeline reads them. */
module Axe {
  import opened Wrappers
  import opened Js

  /** One offending element; `target` lists its selector strings. */
  datatype Node = Node(target: seq<string>)

  /** One rule failure ("violation"). `impact` is the scanner's severity label, or absent. */
  datatype Finding = Finding(id: string, impact: Option<string>, description: string, nodes: seq<Node>)

  /** A scanner run: the violations partition and the partitions the pipeline does not inspect. */
  datatype ScanResult = ScanResult(
    violations: seq<Finding>,
    passes: seq<Finding>,
    incomplete: seq<Finding>,
    inapplicable: seq<Finding>)

  /** What a scan covers: the whole document or a caller-supplied context. */
  datatype Target = WholeDocument | Context(context: JsValue)
}
