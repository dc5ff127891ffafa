/** The abstract syntax handed from the parser to the assembler (asm-ast.h, asm-parse.y). */
module Ast {
  import opened Words

  /** Operand expressions: AST_NUMBER, AST_SYMBOL, AST_MINUS and AST_PLUS nodes. */
  datatype Expr =
    | Number(value: Word)
    | Name(name: string)
    | Minus(left: Expr, right: Expr)
    | Plus(left: Expr, right: Expr)

  function Names(e: Expr): set<string> {
    match e
    case Number(_) => {}
    case Name(n) => {n}
    case Minus(l, r) => Names(l) + Names(r)
    case Plus(l, r) => Names(l) + Names(r)
  }

  /** Statements. The operand list of an instruction is a heap object that a macro body shares with
      every application of the macro; `cell` stands for the pointer to it. */
  datatype Stmt =
    | LabelStmt(name: string)
    | OrgStmt(at: Word)
    | InstrStmt(mnemonic: string, cell: nat)
    | MacroStmt(name: string, formals: seq<string>, body: seq<Stmt>)

  datatype Directive = NUM | EJA

  /** `struct mnemonic` with its three variants. */
  datatype Mnemonic =
    | Instruction(name: string, opcode: nat, operands: nat)
    | Directive(name: string, directive: Directive)
    | Macro(name: string, formals: seq<string>, body: seq<Stmt>)
}
