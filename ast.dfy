/**
 * The part of a php-parser syntax tree that the test parser reads. The tree is
 * the input of the model; lexing and parsing PHP are not modelled.
 */
module Ast {
  import opened Wrappers

  /** A `name` property: either a plain string or a nested name node carrying its own `name`. */
  datatype Name = Plain(value: string) | NameNode(name: string)

  /** `getName`: the string a name stands for. */
  function GetName(n: Name): (r: string)
    ensures n == Plain(r) || n == NameNode(r)
  {
    match n
    case Plain(s) => s
    case NameNode(s) => s
  }

  /** A comment token attached to a declaration; `value` is its full text, delimiters included. */
  datatype Comment = Comment(value: string)

  /** A point of php-parser's `loc`: lines count from 1, columns from 0. */
  datatype Point = Point(line: int, column: int, offset: int)

  /** php-parser's `loc`: start, end and, when captured, the source text of the node. */
  datatype Location = Location(start: Point, end: Point, source: Option<string>)

  /**
   * A member of a class body (a method, a property statement, a class
   * constant, a trait use, ...) distinguished by its `kind` string.
   * `leadingComments` is absent (`None`) when php-parser attached none.
   */
  datatype Declaration = Declaration(
    kind: string,
    name: Name,
    leadingComments: Option<seq<Comment>>,
    loc: Location)

  /**
   * The nodes the walker tells apart:
   *  - UseGroup: a `use` import group;
   *  - Namespace: a namespace block with its statements;
   *  - Class: a `class` declaration with its member declarations (the
   *    abstract flag is part of the node, and the walker never reads it);
   *  - Block: any other node that has a `children` array (the program
   *    root, a block statement, ...);
   *  - Leaf: any other node without `children` (an interface, a trait, a
   *    function, an `if` statement, an expression, ...).
   */
  datatype Node =
    | UseGroup
    | Namespace(name: Name, children: seq<Node>)
    | Class(name: Name, body: seq<Declaration>, isAbstract: bool)
    | Block(children: seq<Node>)
    | Leaf
}
