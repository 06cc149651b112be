/** The syntax tree the lowering walks: the part of Juno's `ast::Node` that
    `gen_expr` and `gen_stmt` inspect, as one closed datatype. Every node
    carries the id the semantic context is keyed by. Node kinds the lowering
    never handles are folded into `OtherNode`; both lowering functions reject
    it. */
module Ast {
  import opened Results

  type NodeId = nat

  datatype AssignmentOperator =
    | Assign | PlusAssign | MinusAssign | MultAssign | DivAssign | ModAssign
    | ExpAssign | LShiftAssign | RShiftAssign | RShift3Assign
    | BitOrAssign | BitXorAssign | BitAndAssign
    | LogicalOrAssign | LogicalAndAssign | NullishAssign
  {
    /** The source spelling (`op.as_str()`). */
    function AsStr(): string
    {
      match this
      case Assign => "="
      case PlusAssign => "+="
      case MinusAssign => "-="
      case MultAssign => "*="
      case DivAssign => "/="
      case ModAssign => "%="
      case ExpAssign => "**="
      case LShiftAssign => "<<="
      case RShiftAssign => ">>="
      case RShift3Assign => ">>>="
      case BitOrAssign => "|="
      case BitXorAssign => "^="
      case BitAndAssign => "&="
      case LogicalOrAssign => "||="
      case LogicalAndAssign => "&&="
      case NullishAssign => "??="
    }
  }

  datatype BinaryOperator =
    | LooseEquals | LooseNotEquals | StrictEquals | StrictNotEquals
    | Less | LessEquals | Greater | GreaterEquals
    | LShift | RShift | RShift3
    | Plus | Minus | Mult | Div | Mod | Exp
    | BitOr | BitXor | BitAnd | In | Instanceof
  {
    /** The source spelling (`op.as_str()`). */
    function AsStr(): string
    {
      match this
      case LooseEquals => "=="
      case LooseNotEquals => "!="
      case StrictEquals => "==="
      case StrictNotEquals => "!=="
      case Less => "<"
      case LessEquals => "<="
      case Greater => ">"
      case GreaterEquals => ">="
      case LShift => "<<"
      case RShift => ">>"
      case RShift3 => ">>>"
      case Plus => "+"
      case Minus => "-"
      case Mult => "*"
      case Div => "/"
      case Mod => "%"
      case Exp => "**"
      case BitOr => "|"
      case BitXor => "^"
      case BitAnd => "&"
      case In => "in"
      case Instanceof => "instanceof"
    }
  }

  datatype UpdateOperator = Increment | Decrement
  {
    function AsStr(): string
    {
      match this
      case Increment => "++"
      case Decrement => "--"
    }
  }

  /** Destructor names follow the original's fields; where two node kinds
      give one name to fields of different types, one of them is renamed
      (`fnBody`, `loopBody`, `catchBody`, `optArgument`, `optTest`). */
  datatype Node =
    | Module(id: NodeId, body: seq<Node>)
    | FunctionExpression(id: NodeId, params: seq<Node>, fnBody: Node)
    | ObjectExpression(id: NodeId, properties: seq<Node>)
    | Property(id: NodeId, key: Node, value: Node, computed: bool)
    | ArrayExpression(id: NodeId, elements: seq<Node>)
    | MemberExpression(id: NodeId, obj: Node, property: Node, computed: bool)
    | CallExpression(id: NodeId, callee: Node, arguments: seq<Node>)
    | Identifier(id: NodeId, name: string)
    | AssignmentExpression(id: NodeId, assignOp: AssignmentOperator, left: Node, right: Node)
    | BinaryExpression(id: NodeId, binaryOp: BinaryOperator, left: Node, right: Node)
    | UpdateExpression(id: NodeId, updateOp: UpdateOperator, argument: Node, prefix: bool)
      /** `numberText` is the `f64` as Rust's `Display` prints it. */
    | NumericLiteral(id: NodeId, numberText: string)
    | BooleanLiteral(id: NodeId, boolValue: bool)
      /** `stringText` is the literal as Rust's `Debug` prints the decoded
          string (quotes and escapes included). */
    | StringLiteral(id: NodeId, stringText: string)
    | BlockStatement(id: NodeId, body: seq<Node>)
    | VariableDeclaration(id: NodeId, declarations: seq<Node>)
    | VariableDeclarator(id: NodeId, ident: Node, init: Option<Node>)
    | FunctionDeclaration(id: NodeId, fnIdent: Option<Node>, params: seq<Node>, fnBody: Node)
    | ReturnStatement(id: NodeId, optArgument: Option<Node>)
    | ExpressionStatement(id: NodeId, expression: Node)
    | WhileStatement(id: NodeId, test: Node, loopBody: Node)
    | ForStatement(id: NodeId, init: Option<Node>, optTest: Option<Node>, update: Option<Node>, loopBody: Node)
    | IfStatement(id: NodeId, test: Node, consequent: Node, alternate: Option<Node>)
    | TryStatement(id: NodeId, block: Node, handler: Option<Node>)
    | CatchClause(id: NodeId, param: Option<Node>, catchBody: Node)
    | ThrowStatement(id: NodeId, argument: Node)
    | OtherNode(id: NodeId, kind: string)
}
