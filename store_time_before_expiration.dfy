/**
 * The grammar action of the password-policy response control
 * (draft-behera-ldap-password-policy) that stores `timeBeforeExpiration`,
 * an INTEGER already decoded by the generic integer action.
 */
module StoreTimeBeforeExpiration {
  import opened Ber

  class PasswordPolicyResponse {
    var timeBeforeExpiration: int
    var graceAuthNsRemaining: int

    constructor ()
      ensures timeBeforeExpiration == -1 && graceAuthNsRemaining == -1
    {
      timeBeforeExpiration := -1;
      graceAuthNsRemaining := -1;
    }
  }

  /** The decoder state of the control: the response being built and the end flag. */
  class PasswordPolicyContainer {
    const response: PasswordPolicyResponse
    var grammarEndAllowed: bool

    constructor (response: PasswordPolicyResponse)
      ensures this.response == response && !grammarEndAllowed
    {
      this.response := response;
      grammarEndAllowed := false;
    }
  }

  /**
   * `setIntegerValue`: the response's timeBeforeExpiration becomes `value`
   * whatever its sign (no range check here), and the grammar may end.
   */
  method SetIntegerValue(value: int, container: PasswordPolicyContainer)
    requires IsInt(value)
    modifies container.response`timeBeforeExpiration, container`grammarEndAllowed
    ensures container.response.timeBeforeExpiration == value
    ensures container.grammarEndAllowed
    ensures container.response.graceAuthNsRemaining == old(container.response.graceAuthNsRemaining)
  {
    container.response.timeBeforeExpiration := value;
    container.grammarEndAllowed := true;
  }
}
