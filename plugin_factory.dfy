/** The operation table `plugin_factory` hands to the host: seven operations looked up by name. */
module PluginFactory {
  import opened Fallthrough

  /** What each table entry runs. */
  datatype Operation =
    | NoOp              // the `no_op` lambda
    | NotSupportedOp    // the `not_supported` lambda
    | RuleExistsOp      // the `rule_exists` function, modelled by `Fallthrough.RuleExists`
    | ListRulesOp       // the `list_rules` function, modelled by `Fallthrough.ListRules`
    | ExecRuleOp        // the `exec_rule` function, modelled by `Fallthrough.ExecRule`

  /** The rule-engine object: the host's instance name and context, kept uninterpreted, and its operations. */
  datatype RuleEngine = RuleEngine(instanceName: string, context: string, operations: map<string, Operation>)

  const OperationNames: set<string> :=
    {"start", "stop", "rule_exists", "list_rules", "exec_rule", "exec_rule_text", "exec_rule_expression"}

  /** `plugin_factory`: registers the seven operations under their fixed names. */
  function Factory(instanceName: string, context: string): (re: RuleEngine)
    ensures re.instanceName == instanceName && re.context == context
    ensures re.operations.Keys == OperationNames
  {
    RuleEngine(instanceName, context, map[
      "start" := NoOp,
      "stop" := NoOp,
      "rule_exists" := RuleExistsOp,
      "list_rules" := ListRulesOp,
      "exec_rule" := ExecRuleOp,
      "exec_rule_text" := NotSupportedOp,
      "exec_rule_expression" := NotSupportedOp
    ])
  }

  /** Running one of the two lambdas; they take no arguments and log nothing. */
  function RunLambda(op: Operation): (r: Outcome)
    requires op == NoOp || op == NotSupportedOp
    ensures r.log == []
    ensures r.status == Success <==> op == NoOp
  {
    match op
    case NoOp => Outcome(Success, [])
    case NotSupportedOp => Outcome(Error(SysNotSupported, "Not supported"), [])
  }

  /** The table has seven entries; `start` and `stop` always succeed, `exec_rule_text` and
      `exec_rule_expression` always answer "Not supported", and the other three run the
      rule-engine operations. */
  lemma FactoryOperations(instanceName: string, context: string)
    ensures var ops := Factory(instanceName, context).operations;
      && |ops| == 7
      && RunLambda(ops["start"]) == Outcome(Success, [])
      && RunLambda(ops["stop"]) == Outcome(Success, [])
      && RunLambda(ops["exec_rule_text"]) == Outcome(Error(SysNotSupported, "Not supported"), [])
      && RunLambda(ops["exec_rule_expression"]) == Outcome(Error(SysNotSupported, "Not supported"), [])
      && ops["rule_exists"] == RuleExistsOp
      && ops["list_rules"] == ListRulesOp
      && ops["exec_rule"] == ExecRuleOp
  {
  }
}
